/** Anti-entropy seen through one key: every replica holds a stamp or nothing, and an
    exchange gives both partners the newer of the two. */
module ViewGossip {
  import opened Options
  import opened GossipValues

  /** The stamp a replica holds for the key; a missing key counts as oldest. */
  type View = Option<Stamp>
  type Views = map<string, View>

  predicate UpTo(a: View, b: View) {
    a.None? || (b.Some? && AtMost(a.value, b.value))
  }

  function Newer(a: View, b: View): View {
    if UpTo(a, b) then b else a
  }

  /** `UpTo` is a total order. */
  lemma UpToIsTotal(a: View, b: View, c: View)
    ensures UpTo(a, a)
    ensures UpTo(a, b) || UpTo(b, a)
    ensures UpTo(a, b) && UpTo(b, a) ==> a == b
    ensures UpTo(a, b) && UpTo(b, c) ==> UpTo(a, c)
  {
    if a.Some? && b.Some? {
      OlderIsTotal(a.value, b.value);
      if c.Some? && UpTo(a, b) && UpTo(b, c) {
        AtMostTransitive(a.value, b.value, c.value);
      }
    }
  }

  /** `Newer` is the least upper bound of its arguments. */
  lemma NewerIsJoin(a: View, b: View, c: View)
    ensures UpTo(a, Newer(a, b)) && UpTo(b, Newer(a, b))
    ensures UpTo(a, c) && UpTo(b, c) ==> UpTo(Newer(a, b), c)
    ensures UpTo(a, c) && UpTo(b, c) && (a == c || b == c) ==> Newer(a, b) == c
  {
    UpToIsTotal(a, b, c);
    UpToIsTotal(b, a, c);
    UpToIsTotal(a, c, c);
    UpToIsTotal(b, c, c);
  }

  function Meet(s: Views, a: string, b: string): (s': Views)
    requires a in s && b in s
    ensures s'.Keys == s.Keys
  {
    s[a := Newer(s[a], s[b])][b := Newer(s[a], s[b])]
  }

  /** `top` is the newest view anywhere in the cluster. */
  ghost predicate IsTop(s: Views, top: View) {
    (exists n :: n in s && s[n] == top) && (forall n :: n in s ==> UpTo(s[n], top))
  }

  lemma {:induction false} TopExists(s: Views) returns (top: View)
    requires s != map[]
    ensures IsTop(s, top)
    decreases |s.Keys|
  {
    var n :| n in s;
    var rest := s - {n};
    assert s.Keys == rest.Keys + {n} && n !in rest.Keys;
    if rest == map[] {
      top := s[n];
      assert forall x :: x in s ==> x == n;
      UpToIsTotal(top, top, top);
    } else {
      var t := TopExists(rest);
      var m :| m in rest && rest[m] == t;
      assert m in s && s[m] == t;
      top := Newer(s[n], t);
      NewerIsJoin(s[n], t, t);
      forall x | x in s ensures UpTo(s[x], top) {
        if x != n {
          assert UpTo(rest[x], t);
          UpToIsTotal(s[x], t, top);
        }
      }
    }
  }

  /** Replicas that do not hold the newest view. */
  function Lagging(s: Views, top: View): set<string> {
    set n | n in s && s[n] != top
  }

  predicate Productive(s: Views, a: string, b: string, top: View)
    requires a in s && b in s
  {
    (s[a] == top) != (s[b] == top)
  }

  lemma MeetKeepsTop(s: Views, a: string, b: string, top: View)
    requires a in s && b in s && IsTop(s, top)
    ensures IsTop(Meet(s, a, b), top)
    ensures forall n :: n in s && s[n] == top ==> Meet(s, a, b)[n] == top
  {
    var s' := Meet(s, a, b);
    NewerIsJoin(s[a], s[b], top);
    var w :| w in s && s[w] == top;
    assert s'[w] == top;
  }

  /** An exchange removes exactly one laggard when one side holds the newest view and the
      other does not, and changes nobody's standing otherwise. */
  lemma MeetMeasure(s: Views, a: string, b: string, top: View)
    requires a in s && b in s && a != b && IsTop(s, top)
    ensures |Lagging(Meet(s, a, b), top)| == |Lagging(s, top)| - (if Productive(s, a, b, top) then 1 else 0)
  {
    var s' := Meet(s, a, b);
    NewerIsJoin(s[a], s[b], top);
    if Productive(s, a, b, top) {
      var laggard := if s[a] == top then b else a;
      assert Lagging(s', top) == Lagging(s, top) - {laggard};
    } else {
      assert Lagging(s', top) == Lagging(s, top);
    }
  }

  /******* Sequences of exchanges *******/

  type Schedule = seq<(string, string)>

  ghost predicate ValidSchedule(nodes: set<string>, schedule: Schedule) {
    forall p :: p in schedule ==> p.0 in nodes && p.1 in nodes && p.0 != p.1
  }

  ghost function MeetAll(s: Views, schedule: Schedule): (r: Views)
    requires ValidSchedule(s.Keys, schedule)
    ensures r.Keys == s.Keys
    decreases |schedule|
  {
    if schedule == [] then s else MeetAll(Meet(s, schedule[0].0, schedule[0].1), schedule[1..])
  }

  /** How many exchanges of the schedule bring a holder and a non-holder together. */
  ghost function ProductiveCount(s: Views, schedule: Schedule, top: View): nat
    requires ValidSchedule(s.Keys, schedule)
    decreases |schedule|
  {
    if schedule == [] then 0
    else (if Productive(s, schedule[0].0, schedule[0].1, top) then 1 else 0) +
         ProductiveCount(Meet(s, schedule[0].0, schedule[0].1), schedule[1..], top)
  }

  lemma {:induction false} Accounting(s: Views, schedule: Schedule, top: View)
    requires ValidSchedule(s.Keys, schedule) && IsTop(s, top)
    ensures IsTop(MeetAll(s, schedule), top)
    ensures |Lagging(MeetAll(s, schedule), top)| + ProductiveCount(s, schedule, top) == |Lagging(s, top)|
    decreases |schedule|
  {
    if schedule != [] {
      var p := schedule[0];
      MeetKeepsTop(s, p.0, p.1, top);
      MeetMeasure(s, p.0, p.1, top);
      Accounting(Meet(s, p.0, p.1), schedule[1..], top);
    }
  }

  /** One hub talking to each node of the list in turn. */
  function Sweep(hub: string, others: seq<string>): (r: Schedule)
    ensures |r| == |others| && forall i :: 0 <= i < |r| ==> r[i] == (hub, others[i])
    decreases |others|
  {
    if others == [] then [] else [(hub, others[0])] + Sweep(hub, others[1..])
  }

  lemma SweepValid(nodes: set<string>, hub: string, others: seq<string>)
    requires hub in nodes && forall n :: n in others ==> n in nodes && n != hub
    ensures ValidSchedule(nodes, Sweep(hub, others))
  {
  }

  /** A sweep lifts the hub above every node it met. */
  lemma {:induction false} SweepLifts(s: Views, hub: string, others: seq<string>, n: string)
    requires hub in s && (forall m :: m in others ==> m in s && m != hub)
    requires n == hub || n in others
    ensures ValidSchedule(s.Keys, Sweep(hub, others))
    ensures UpTo(s[n], MeetAll(s, Sweep(hub, others))[hub])
    decreases |others|
  {
    SweepValid(s.Keys, hub, others);
    if others == [] {
      UpToIsTotal(s[n], s[n], s[n]);
    } else {
      var b := others[0];
      var s1 := Meet(s, hub, b);
      assert Sweep(hub, others)[1..] == Sweep(hub, others[1..]);
      NewerIsJoin(s[hub], s[b], s[hub]);
      var n1 := if n == b then hub else n;
      assert UpTo(s[n], s1[n1]) by { UpToIsTotal(s[n], s[n], s[n]); }
      SweepLifts(s1, hub, others[1..], n1);
      UpToIsTotal(s[n], s1[n1], MeetAll(s1, Sweep(hub, others[1..]))[hub]);
    }
  }

  /** A hub that holds the newest view hands it to every node it meets. */
  lemma {:induction false} SweepSpreads(s: Views, hub: string, others: seq<string>, top: View, n: string)
    requires hub in s && (forall m :: m in others ==> m in s && m != hub)
    requires IsTop(s, top) && s[hub] == top && n in s && (s[n] == top || n in others)
    ensures ValidSchedule(s.Keys, Sweep(hub, others))
    ensures MeetAll(s, Sweep(hub, others))[n] == top
    decreases |others|
  {
    SweepValid(s.Keys, hub, others);
    if others != [] {
      var b := others[0];
      var s1 := Meet(s, hub, b);
      assert Sweep(hub, others)[1..] == Sweep(hub, others[1..]);
      MeetKeepsTop(s, hub, b, top);
      NewerIsJoin(s[hub], s[b], top);
      SweepSpreads(s1, hub, others[1..], top, n);
    }
  }

  lemma TwoSweepsAgree(s: Views, hub: string, others: seq<string>)
    requires hub in s && (forall m :: m in others ==> m in s && m != hub)
    requires forall n :: n in s ==> n == hub || n in others
    ensures ValidSchedule(s.Keys, Sweep(hub, others))
    ensures var s2 := MeetAll(MeetAll(s, Sweep(hub, others)), Sweep(hub, others));
            forall n, m :: n in s2 && m in s2 ==> s2[n] == s2[m]
  {
    SweepValid(s.Keys, hub, others);
    var top := TopExists(s);
    Accounting(s, Sweep(hub, others), top);
    var s1 := MeetAll(s, Sweep(hub, others));
    var w :| w in s && s[w] == top;
    SweepLifts(s, hub, others, w);
    UpToIsTotal(s1[hub], top, top);
    forall n | n in s1 ensures MeetAll(s1, Sweep(hub, others))[n] == top {
      SweepSpreads(s1, hub, others, top, n);
    }
  }
}
