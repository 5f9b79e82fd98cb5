/** The order of strings that sorting uses. */
module TextOrder {

  /** `a < b` on strings: by the first differing character, a proper prefix first. */
  predicate Before(a: string, b: string) {
    b != [] && (a == [] || a[0] < b[0] || (a[0] == b[0] && Before(a[1..], b[1..])))
  }

  lemma {:induction false} BeforeTrichotomy(a: string, b: string)
    ensures !(Before(a, b) && Before(b, a))
    ensures !Before(a, b) && !Before(b, a) <==> a == b
  {
    if a != [] && b != [] && a[0] == b[0] {
      BeforeTrichotomy(a[1..], b[1..]);
      assert a == [a[0]] + a[1..] && b == [b[0]] + b[1..];
    }
  }

  lemma {:induction false} BeforeTransitive(a: string, b: string, c: string)
    requires !Before(b, a) && !Before(c, b)
    ensures !Before(c, a)
  {
    if c != [] && b != [] && a != [] && a[0] == b[0] == c[0] {
      BeforeTransitive(a[1..], b[1..], c[1..]);
    }
  }

  /** The place that decides: everything before it agrees, and there `a` ends or has the smaller character. */
  predicate DecidesAt(a: string, b: string, i: nat) {
    i <= |a| && i < |b| && a[..i] == b[..i] && (i == |a| || a[i] < b[i])
  }

  lemma FirstAgrees(a: string, b: string, i: nat)
    requires DecidesAt(a, b, i)
    ensures i > 0 ==> a[0] == b[0]
  {
    assert i > 0 ==> a[..i][0] == a[0] && b[..i][0] == b[0];
  }

  lemma {:induction false} BeforeExactly(a: string, b: string)
    ensures Before(a, b) <==> exists i: nat :: DecidesAt(a, b, i)
  {
    if a != [] && b != [] && a[0] == b[0] {
      BeforeExactly(a[1..], b[1..]);
      forall i: nat | i <= |a| - 1 && i <= |b| - 1
        ensures DecidesAt(a[1..], b[1..], i) <==> DecidesAt(a, b, i + 1)
      {
        assert a[..i + 1] == [a[0]] + a[1..][..i] && b[..i + 1] == [b[0]] + b[1..][..i];
      }
      if Before(a, b) {
        var i: nat :| DecidesAt(a[1..], b[1..], i);
        assert DecidesAt(a, b, i + 1);
      }
      forall i: nat | DecidesAt(a, b, i)
        ensures Before(a, b)
      {
        assert i > 0 && DecidesAt(a[1..], b[1..], i - 1);
      }
    } else if Before(a, b) {
      assert DecidesAt(a, b, 0);
    } else {
      forall i: nat | DecidesAt(a, b, i)
        ensures false
      {
        FirstAgrees(a, b, i);
      }
    }
  }
}
