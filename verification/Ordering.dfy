/** The strict total order that Go's `<` puts on strings.  Node ids (conflict
    tie-break) and node states (metrics tie-break) are both compared with it. */
module Ordering {

  predicate Less(a: string, b: string) {
    b != "" && (a == "" || a[0] < b[0] || (a[0] == b[0] && Less(a[1..], b[1..])))
  }

  lemma {:induction false} LessIrreflexive(a: string)
    ensures !Less(a, a)
  {
    if a != "" {
      LessIrreflexive(a[1..]);
    }
  }

  lemma {:induction false} LessTransitive(a: string, b: string, c: string)
    requires Less(a, b) && Less(b, c)
    ensures Less(a, c)
  {
    if a != "" && a[0] == b[0] && b[0] == c[0] {
      LessTransitive(a[1..], b[1..], c[1..]);
    }
  }

  lemma LessAsymmetric(a: string, b: string)
    requires Less(a, b)
    ensures !Less(b, a)
  {
    if Less(b, a) {
      LessTransitive(a, b, a);
      LessIrreflexive(a);
    }
  }

  lemma {:induction false} LessTotal(a: string, b: string)
    ensures Less(a, b) || a == b || Less(b, a)
  {
    if a != "" && b != "" && a[0] == b[0] {
      LessTotal(a[1..], b[1..]);
      assert a == [a[0]] + a[1..] && b == [b[0]] + b[1..];
    }
  }

  /** The order of a dictionary: up to some position the strings are the same, and there the
      first one ends or has the smaller character. */
  ghost predicate LexBefore(a: string, b: string) {
    exists i :: 0 <= i <= |a| && i <= |b| && a[..i] == b[..i] && Branches(a, b, i)
  }

  predicate Branches(a: string, b: string, i: nat)
    requires i <= |a| && i <= |b|
  {
    i < |b| && (i == |a| || a[i] < b[i])
  }

  lemma LexNext(a: string, b: string)
    requires a != "" && b != "" && a[0] == b[0]
    ensures LexBefore(a, b) <==> LexBefore(a[1..], b[1..])
  {
    if LexBefore(a, b) {
      var i :| 0 <= i <= |a| && i <= |b| && a[..i] == b[..i] && Branches(a, b, i);
      assert a[1..][..i-1] == a[..i][1..] && b[1..][..i-1] == b[..i][1..];
      assert Branches(a[1..], b[1..], i - 1);
    }
    if LexBefore(a[1..], b[1..]) {
      var i :| 0 <= i <= |a[1..]| && i <= |b[1..]| && a[1..][..i] == b[1..][..i] && Branches(a[1..], b[1..], i);
      assert a[..i+1] == [a[0]] + a[1..][..i] && b[..i+1] == [b[0]] + b[1..][..i];
      assert Branches(a, b, i + 1);
    }
  }

  lemma SamePrefix(a: string, b: string, i: nat)
    requires i <= |a| && i <= |b| && a[..i] == b[..i]
    ensures forall j :: 0 <= j < i ==> a[j] == b[j]
  {
    forall j | 0 <= j < i ensures a[j] == b[j] {
      assert a[..i][j] == b[..i][j];
    }
  }

  lemma LexFirst(a: string, b: string)
    requires a == "" || b == "" || a[0] != b[0]
    ensures LexBefore(a, b) <==> b != "" && (a == "" || a[0] < b[0])
  {
    if LexBefore(a, b) {
      var i :| 0 <= i <= |a| && i <= |b| && a[..i] == b[..i] && Branches(a, b, i);
      SamePrefix(a, b, i);
    }
    if b != "" && (a == "" || a[0] < b[0]) {
      assert a[..0] == b[..0] && Branches(a, b, 0);
    }
  }

  /** `Less` is the lexicographic order. */
  lemma {:induction false} LessIsLexicographic(a: string, b: string)
    ensures Less(a, b) <==> LexBefore(a, b)
  {
    if a != "" && b != "" && a[0] == b[0] {
      LessIsLexicographic(a[1..], b[1..]);
      LexNext(a, b);
    } else {
      LexFirst(a, b);
    }
  }
}
