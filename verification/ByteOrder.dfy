/** Go strings as byte sequences, with the order of the operator `<` on them. */
module ByteOrder {
  newtype byte = x: int | 0 <= x < 256

  type Text = seq<byte>

  /** Bytewise lexicographic order, a proper prefix being smaller. */
  predicate Less(a: Text, b: Text) {
    if b == [] then false
    else if a == [] then true
    else if a[0] != b[0] then a[0] < b[0]
    else Less(a[1..], b[1..])
  }

  lemma {:induction false} LessIrreflexive(a: Text)
    ensures !Less(a, a)
  {
    if a != [] {
      LessIrreflexive(a[1..]);
    }
  }

  lemma {:induction false} LessTransitive(a: Text, b: Text, c: Text)
    requires Less(a, b) && Less(b, c)
    ensures Less(a, c)
  {
    if a != [] && a[0] == b[0] == c[0] {
      LessTransitive(a[1..], b[1..], c[1..]);
    }
  }

  /** Of two different strings exactly one is less than the other; equal ones are incomparable. */
  lemma {:induction false} LessTrichotomy(a: Text, b: Text)
    ensures Less(a, b) != Less(b, a) <==> a != b
    ensures a == b ==> !Less(a, b)
  {
    if a != [] && b != [] && a[0] == b[0] {
      LessTrichotomy(a[1..], b[1..]);
      assert a == [a[0]] + a[1..] && b == [b[0]] + b[1..];
    }
  }

  /** The first position where the strings differ decides; a proper prefix is the smaller string. */
  lemma {:induction false} LessIffFirstDifference(a: Text, b: Text)
    ensures Less(a, b) <==>
            exists n: nat :: n <= |a| && n < |b| && a[..n] == b[..n] && (n == |a| || a[n] < b[n])
  {
    if b == [] {
    } else if a == [] {
      assert a[..0] == b[..0];
    } else if a[0] != b[0] {
      if a[0] < b[0] {
        assert a[..0] == b[..0];
      } else {
        assert forall n: nat | 0 < n <= |a| && n < |b| :: a[..n][0] == a[0] && b[..n][0] == b[0];
      }
    } else {
      var s, t := a[1..], b[1..];
      LessIffFirstDifference(s, t);
      if Less(s, t) {
        var n: nat :| n <= |s| && n < |t| && s[..n] == t[..n] && (n == |s| || s[n] < t[n]);
        assert a[..n + 1] == [a[0]] + s[..n] && b[..n + 1] == [b[0]] + t[..n];
      } else {
        forall n: nat | n <= |a| && n < |b| && a[..n] == b[..n]
          ensures n < |a| && a[n] >= b[n]
        {
          if n > 0 {
            assert a[..n][1..] == s[..n - 1] && b[..n][1..] == t[..n - 1];
          }
        }
      }
    }
  }
}
