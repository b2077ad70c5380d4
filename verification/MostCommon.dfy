/** The mode of a snapshot: the state most nodes agree on, and what the iteration order of
    the node map can and cannot change about it. */
module MostCommon {
  import opened Ordering

  datatype NodeState = NodeState(exists_: bool, value: string, version: int, origin: string, hasMetadata: bool)

  type Nodes = map<string, NodeState>

  const ZERO_STATE := NodeState(false, "", 0, "", false)

  predicate LessState(a: NodeState, b: NodeState) {
    if a.value != b.value then Less(a.value, b.value)
    else if a.version != b.version then a.version < b.version
    else if a.origin != b.origin then Less(a.origin, b.origin)
    else !a.hasMetadata && b.hasMetadata
  }

  /** Equal on every field the order compares; `exists_` is not one of them. */
  predicate SameFields(a: NodeState, b: NodeState) {
    a.value == b.value && a.version == b.version && a.origin == b.origin && a.hasMetadata == b.hasMetadata
  }

  lemma LessStateTransitive(a: NodeState, b: NodeState, c: NodeState)
    requires LessState(a, b) && LessState(b, c)
    ensures LessState(a, c)
  {
    if a.value != b.value && b.value != c.value {
      LessTransitive(a.value, b.value, c.value);
      LessIrreflexive(a.value);
    } else if a.value == b.value == c.value && a.version == b.version == c.version &&
              a.origin != b.origin && b.origin != c.origin {
      LessTransitive(a.origin, b.origin, c.origin);
      LessIrreflexive(a.origin);
    }
    if a.value == c.value && a.value != b.value {
      LessAsymmetric(a.value, b.value);
    }
    if a.origin == c.origin && Less(a.origin, b.origin) {
      LessAsymmetric(a.origin, b.origin);
    }
  }

  lemma LessStateTotal(a: NodeState, b: NodeState)
    ensures !LessState(a, a)
    ensures LessState(a, b) ==> !LessState(b, a)
    ensures !LessState(a, b) && !LessState(b, a) <==> SameFields(a, b)
  {
    LessTotal(a.value, b.value);
    LessTotal(a.origin, b.origin);
    if Less(a.value, b.value) { LessAsymmetric(a.value, b.value); }
    if Less(b.value, a.value) { LessAsymmetric(b.value, a.value); }
    if Less(a.origin, b.origin) { LessAsymmetric(a.origin, b.origin); }
    if Less(b.origin, a.origin) { LessAsymmetric(b.origin, a.origin); }
  }

  /** Below `x` and not above it: still not below what lies under `x`. */
  lemma NotLessStep(x: NodeState, t: NodeState, s: NodeState)
    requires LessState(x, t) && !LessState(s, t)
    ensures !LessState(s, x)
  {
    if LessState(s, x) {
      LessStateTransitive(s, x, t);
    }
  }

  /******* Counting over an iteration order *******/

  ghost function Count(states: seq<NodeState>, s: NodeState): nat {
    multiset(states)[s]
  }

  /** The loop of mostCommonState, run over the states in the order the map yields them. */
  ghost function Mode(states: seq<NodeState>): (NodeState, nat)
    decreases |states|
  {
    if states == [] then (ZERO_STATE, 0)
    else
      var best, s := Mode(states[..|states|-1]), states[|states|-1];
      var n := Count(states, s);
      if n > best.1 || (n == best.1 && LessState(s, best.0)) then (s, n) else best
  }

  /** `top` has the maximal count, exactly `n`, and no state of that count is below it. */
  ghost predicate IsMode(states: seq<NodeState>, top: NodeState, n: nat) {
    && top in states && Count(states, top) == n
    && forall s :: s in states ==> Count(states, s) <= n && (Count(states, s) == n ==> !LessState(s, top))
  }

  lemma CountLast(states: seq<NodeState>, s: NodeState)
    requires states != []
    ensures var init, x := states[..|states|-1], states[|states|-1];
      && Count(states, s) == Count(init, s) + (if s == x then 1 else 0)
      && (s in states <==> s in init || s == x)
  {
    assert states == states[..|states|-1] + [states[|states|-1]];
  }

  lemma {:induction false} ModeIsMode(states: seq<NodeState>)
    requires states != []
    ensures IsMode(states, Mode(states).0, Mode(states).1)
    decreases |states|
  {
    var init, x := states[..|states|-1], states[|states|-1];
    var (top, n) := Mode(states);
    if init == [] {
      assert states == [x];
      LessStateTotal(x, x);
    } else {
      ModeIsMode(init);
      var (t, m) := Mode(init);
      CountLast(states, x);
      CountLast(states, t);
      CountLast(states, top);
      forall s | s in states ensures Count(states, s) <= n && (Count(states, s) == n ==> !LessState(s, top)) {
        CountLast(states, s);
        LessStateTotal(s, s);
        if Count(states, s) == n && s != x && top == x && n == m {
          NotLessStep(x, t, s);
        }
      }
    }
  }

  ghost predicate SameCounts(p: seq<NodeState>, q: seq<NodeState>) {
    multiset(p) == multiset(q)
  }

  /** Being a mode depends on the counts only. */
  lemma ModeByCounts(p: seq<NodeState>, q: seq<NodeState>, top: NodeState, n: nat)
    requires SameCounts(p, q) && IsMode(p, top, n)
    ensures IsMode(q, top, n)
  {
    forall s ensures s in p <==> s in q {
      assert s in p <==> s in multiset(p);
      assert s in q <==> s in multiset(q);
    }
  }

  /** Two modes of the same states have the same count and agree on every compared field. */
  lemma ModesAlike(states: seq<NodeState>, a: NodeState, n: nat, b: NodeState, m: nat)
    requires IsMode(states, a, n) && IsMode(states, b, m)
    ensures n == m && SameFields(a, b)
  {
    LessStateTotal(a, b);
  }

  /** Two different states both qualify as mode: they tie on count and on every compared field. */
  ghost predicate Ambiguous(states: seq<NodeState>) {
    exists a, b, n :: a != b && IsMode(states, a, n) && IsMode(states, b, n)
  }

  function Repeat(s: NodeState, n: nat): (r: seq<NodeState>)
    ensures |r| == n && forall i :: 0 <= i < n ==> r[i] == s
  {
    seq(n, i => s)
  }

  function Without(states: seq<NodeState>, s: NodeState): seq<NodeState> {
    if states == [] then [] else (if states[0] == s then [] else [states[0]]) + Without(states[1..], s)
  }

  lemma {:induction false} RepeatCounts(s: NodeState, n: nat, x: NodeState)
    ensures Count(Repeat(s, n), x) == if x == s then n else 0
    decreases n
  {
    if n > 0 {
      RepeatCounts(s, n - 1, x);
      assert Repeat(s, n) == Repeat(s, n - 1) + [s];
    } else {
      assert Repeat(s, n) == [];
    }
  }

  lemma {:induction false} WithoutCounts(states: seq<NodeState>, s: NodeState, x: NodeState)
    ensures Count(Without(states, s), x) == if x == s then 0 else Count(states, x)
    decreases |states|
  {
    if states != [] {
      WithoutCounts(states[1..], s, x);
      assert states == [states[0]] + states[1..];
    }
  }

  /** The same states with all copies of `s` moved to the front. */
  function FirstOf(states: seq<NodeState>, s: NodeState): seq<NodeState> {
    Repeat(s, multiset(states)[s]) + Without(states, s)
  }

  lemma FirstOfSameCounts(states: seq<NodeState>, s: NodeState)
    ensures SameCounts(FirstOf(states, s), states)
  {
    forall x ensures multiset(FirstOf(states, s))[x] == multiset(states)[x] {
      RepeatCounts(s, multiset(states)[s], x);
      WithoutCounts(states, s, x);
    }
  }

  lemma {:induction false} ModeOfRepeat(s: NodeState, n: nat)
    requires n > 0
    ensures Mode(Repeat(s, n)) == (s, n)
    decreases n
  {
    RepeatCounts(s, n, s);
    assert Repeat(s, n)[..n-1] == Repeat(s, n - 1);
    if n > 1 {
      ModeOfRepeat(s, n - 1);
    } else {
      assert Repeat(s, n)[..0] == [];
    }
  }

  lemma CountPrefix(all: seq<NodeState>, states: seq<NodeState>, x: NodeState)
    requires states <= all
    ensures Count(states, x) <= Count(all, x)
  {
    assert all == states + all[|states|..];
  }

  /** A mode whose count is exact is kept when one more state is visited. */
  lemma ModeStays(all: seq<NodeState>, s: NodeState, n: nat, init: seq<NodeState>, x: NodeState)
    requires IsMode(all, s, n) && Mode(init) == (s, n) && init + [x] <= all
    ensures Mode(init + [x]) == (s, n)
  {
    var states := init + [x];
    assert states[..|states|-1] == init && states[|states|-1] == x && all[|init|] == x;
    CountPrefix(all, states, x);
  }

  /** A mode that leads with its full count is never replaced. */
  lemma {:induction false} FirstWins(
    all: seq<NodeState>, s: NodeState, n: nat, front: seq<NodeState>, rest: seq<NodeState>)
    requires IsMode(all, s, n) && Mode(front) == (s, n) && front + rest <= all
    ensures Mode(front + rest) == (s, n)
    decreases |rest|
  {
    if rest == [] {
      assert front + rest == front;
    } else {
      var init, x := rest[..|rest|-1], rest[|rest|-1];
      assert front + rest == (front + init) + [x];
      FirstWins(all, s, n, front, init);
      ModeStays(all, s, n, front + init, x);
    }
  }

  lemma ModeCanBeAny(states: seq<NodeState>, s: NodeState, n: nat)
    requires IsMode(states, s, n)
    ensures SameCounts(FirstOf(states, s), states) && Mode(FirstOf(states, s)) == (s, n)
  {
    FirstOfSameCounts(states, s);
    ModeByCounts(states, FirstOf(states, s), s, n);
    ModeOfRepeat(s, n);
    FirstWins(FirstOf(states, s), s, n, Repeat(s, n), Without(states, s));
  }

  /** mostCommonState gives the same answer for every iteration order if and only if no two
      different states tie on count and on all compared fields. */
  lemma OrderIndependentExactly(states: seq<NodeState>)
    requires states != []
    ensures (forall p :: SameCounts(p, states) ==> Mode(p) == Mode(states)) <==> !Ambiguous(states)
  {
    if Ambiguous(states) {
      var a, b, n :| a != b && IsMode(states, a, n) && IsMode(states, b, n);
      ModeCanBeAny(states, a, n);
      ModeCanBeAny(states, b, n);
      assert Mode(FirstOf(states, a)) != Mode(FirstOf(states, b));
    } else {
      ModeIsMode(states);
      forall p | SameCounts(p, states) ensures Mode(p) == Mode(states) {
        assert |multiset(p)| == |multiset(states)|;
        ModeIsMode(p);
        ModeByCounts(p, states, Mode(p).0, Mode(p).1);
        ModesAlike(states, Mode(p).0, Mode(p).1, Mode(states).0, Mode(states).1);
      }
    }
  }

  /** It is enough that states equal on the compared fields also agree on existence. */
  lemma ExistenceDetermined(states: seq<NodeState>)
    requires forall a, b :: a in states && b in states && SameFields(a, b) ==> a.exists_ == b.exists_
    ensures !Ambiguous(states)
  {
    if Ambiguous(states) {
      var a, b, n :| a != b && IsMode(states, a, n) && IsMode(states, b, n);
      ModesAlike(states, a, n, b, n);
    }
  }

  /** Two nodes, one of which lacks the key: whichever the map yields first becomes the mode. */
  lemma TieOnExistence()
    ensures Ambiguous([ZERO_STATE, ZERO_STATE.(exists_ := true)])
  {
    var a, b := ZERO_STATE, ZERO_STATE.(exists_ := true);
    var states := [a, b];
    assert Count(states, a) == 1 && Count(states, b) == 1;
    LessStateTotal(a, b);
    LessStateTotal(a, a);
    LessStateTotal(b, b);
    assert IsMode(states, a, 1) && IsMode(states, b, 1);
  }

  /** Values decide first, in dictionary order, then versions, origins and presence of metadata. */
  lemma LessStateMeans(a: NodeState, b: NodeState)
    ensures LessState(a, b) <==>
              || LexBefore(a.value, b.value)
              || (a.value == b.value && a.version < b.version)
              || (a.value == b.value && a.version == b.version && LexBefore(a.origin, b.origin))
              || (a.value == b.value && a.version == b.version && a.origin == b.origin &&
                  !a.hasMetadata && b.hasMetadata)
  {
    LessIsLexicographic(a.value, b.value);
    LessIsLexicographic(a.origin, b.origin);
    LessIrreflexive(a.value);
    LessIrreflexive(a.origin);
  }
}
