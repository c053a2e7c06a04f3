/** The byte-wise order that the source's `<` puts on strings. */
module Text {

  predicate Less(a: string, b: string) {
    b != [] && (a == [] || a[0] < b[0] || (a[0] == b[0] && Less(a[1..], b[1..])))
  }

  /** Up to some position the texts agree; there the lesser one ends or has the lesser character. */
  lemma {:induction false} LessExactlyWhen(a: string, b: string)
    ensures Less(a, b) <==> exists k: nat :: FirstDifference(a, b, k)
  {
    if Less(a, b) {
      if a == [] || a[0] < b[0] {
        assert FirstDifference(a, b, 0);
      } else {
        LessExactlyWhen(a[1..], b[1..]);
        var k: nat :| FirstDifference(a[1..], b[1..], k);
        assert a[..k + 1] == [a[0]] + a[1..][..k] && b[..k + 1] == [b[0]] + b[1..][..k];
        assert FirstDifference(a, b, k + 1);
      }
    } else if k: nat :| FirstDifference(a, b, k) {
      if k > 0 {
        assert a[0] == a[..k][0] == b[..k][0] == b[0];
        assert a[1..][..k - 1] == a[..k][1..] && b[1..][..k - 1] == b[..k][1..];
        assert FirstDifference(a[1..], b[1..], k - 1);
        LessExactlyWhen(a[1..], b[1..]);
      }
    }
  }

  ghost predicate FirstDifference(a: string, b: string, k: nat) {
    k <= |a| && k < |b| && a[..k] == b[..k] && (k == |a| || a[k] < b[k])
  }

  lemma {:induction false} LessTransitive(a: string, b: string, c: string)
    requires Less(a, b) && Less(b, c)
    ensures Less(a, c)
  {
    if a != [] && a[0] == b[0] && b[0] == c[0] {
      LessTransitive(a[1..], b[1..], c[1..]);
    }
  }

  lemma {:induction false} LessTotal(a: string, b: string)
    ensures Less(a, b) || a == b || Less(b, a)
    ensures !(Less(a, b) && Less(b, a))
    ensures !Less(a, a)
  {
    if a != [] && b != [] {
      LessTotal(a[1..], b[1..]);
      if a[0] == b[0] && a[1..] == b[1..] {
        assert a == [a[0]] + a[1..] && b == [b[0]] + b[1..];
      }
    }
    if a != [] {
      LessTotal(a[1..], a[1..]);
    }
  }
}
