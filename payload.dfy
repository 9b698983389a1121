/**
 * The `markers` payload as the browser scripts receive it: the JSON the
 * status view serialises from the server's `entities` and `prominence`.
 * Concepts come in the order the engine's `for (id in concepts)` visits
 * them; the numbers the server wrote as JSON numbers arrive as numbers, the
 * attribute strings as strings.
 */
module Payload {
  import opened Common

  /** A `related` item: every field is the attribute string from the markers file. */
  datatype RelatedItem = RelatedItem(id: string, strength: string, count: string, prom: string)

  /**
   * A concept. `mstEdges` holds the `to` ids of its spanning-tree edges;
   * `related` is absent (`None`) when the concept element had no child.
   */
  datatype Concept = Concept(
    id: int,
    value: string,
    weight: real,
    x: real,
    y: real,
    themeId: string,
    mstEdges: seq<int>,
    related: Option<seq<RelatedItem>>)

  function ConceptId(c: Concept): int { c.id }

  function ConceptValue(c: Concept): string { c.value }

  /** The digits of `n`, most significant first. */
  function NatDigits(n: nat): (r: string)
    ensures |r| > 0
    ensures forall k :: 0 <= k < |r| ==> '0' <= r[k] <= '9'
    ensures r[0] == '0' ==> n == 0
  {
    var d := ['0' + (n % 10) as char];
    if n < 10 then d else NatDigits(n / 10) + d
  }

  /**
   * The property key an integer becomes when it is used to index an object:
   * its decimal form, with a minus sign when negative.
   */
  function DecimalKey(n: int): (r: string)
    ensures |r| > 0
    ensures n >= 0 <==> r[0] != '-'
  {
    if n < 0 then "-" + NatDigits(-n) else NatDigits(n)
  }

  /** Distinct integers give distinct property keys. */
  lemma {:induction false} NatDigitsInjective(m: nat, n: nat)
    requires NatDigits(m) == NatDigits(n)
    ensures m == n
  {
    var a, b := NatDigits(m), NatDigits(n);
    assert a[|a| - 1] == '0' + (m % 10) as char;
    assert b[|b| - 1] == '0' + (n % 10) as char;
    assert m % 10 == n % 10;
    if m >= 10 && n >= 10 {
      assert a[..|a| - 1] == NatDigits(m / 10);
      assert b[..|b| - 1] == NatDigits(n / 10);
      NatDigitsInjective(m / 10, n / 10);
    }
  }

  lemma DecimalKeyInjective(m: int, n: int)
    requires DecimalKey(m) == DecimalKey(n)
    ensures m == n
  {
    if m < 0 && n < 0 {
      assert DecimalKey(m)[1..] == NatDigits(-m);
      assert DecimalKey(n)[1..] == NatDigits(-n);
      NatDigitsInjective(-m, -n);
    } else if m >= 0 && n >= 0 {
      NatDigitsInjective(m, n);
    }
  }
}
