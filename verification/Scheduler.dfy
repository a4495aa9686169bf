/** Round-robin fairness of pit_handler. */
module Scheduler {
  import opened Processes
  import opened CallStacks
  import Forest

  function ReadySet(s: State): set<int>
    requires Shape(s)
  {
    set p | 0 <= p < MAX_PID && Ready(s, p)
  }

  /** Consecutive timer ticks. */
  predicate TickRun(run: seq<State>) {
    && (forall i :: 0 <= i < |run| ==> Shape(run[i]))
    && (forall i :: 0 < i < |run| ==> run[i] == TimerTick(run[i - 1]))
  }

  /** Ready processes met before c when walking up from c0. */
  ghost function Before(ready: set<int>, c0: int, c: int): set<int>
    requires 0 <= c0 < MAX_PID && 0 <= c < MAX_PID
    requires forall q :: q in ready ==> 0 <= q < MAX_PID
  {
    set q | q in ready && Distance(c0, q) < Distance(c0, c)
  }

  /** A tick changes neither the ready set nor the refinement, and moves to the nearest ready process. */
  lemma TickStep(s: State, m: Machine) returns (m': Machine)
    requires Refines(s, m) && s.current != NONE && Ready(s, s.current)
    ensures Refines(TimerTick(s), m')
    ensures ReadySet(TimerTick(s)) == ReadySet(s) && TimerTick(s).current in ReadySet(s)
    ensures NearestReady(s, TimerTick(s).current)
  {
    m' := TickRefines(s, m);
    Forest.RefinedIsWellFormed(s, m);
    ScanFindsNearest(s, NextPid(s.current));
  }

  /** One step of the walk, in distances from the start c0. */
  lemma WalkOn(s: State, c0: int, next: int)
    requires Shape(s) && s.current != NONE && Ready(s, s.current) && NearestReady(s, next)
    requires c0 in ReadySet(s)
    ensures var R := ReadySet(s); var c := s.current;
            if R == Before(R, c0, c) + {c} then next == c0
            else next in R && Before(R, c0, next) == Before(R, c0, c) + {c}
  {
    var R, c := ReadySet(s), s.current;
    if R == Before(R, c0, c) + {c} {
      if c0 != c {
        assert next in Before(R, c0, c);
        assert Distance(c, next) == Distance(c0, next) - Distance(c0, c) + MAX_PID;
      }
    } else {
      var q :| q in R && q !in Before(R, c0, c) + {c};
      assert Distance(c, q) == Distance(c0, q) - Distance(c0, c);
      assert Distance(c0, c) < Distance(c0, next);
      forall r | r in R
        ensures r in Before(R, c0, next) <==> r in Before(R, c0, c) + {c} {
        if Distance(c0, c) < Distance(c0, r) {
          assert Distance(c, r) == Distance(c0, r) - Distance(c0, c);
        }
      }
    }
  }

  /** After k ticks exactly k ready processes lie behind, as long as the round is not over. */
  lemma {:induction false} Walk(run: seq<State>, m: Machine, k: nat) returns (m': Machine)
    requires TickRun(run) && k < |run| && Refines(run[0], m) && run[0].current != NONE
    requires Ready(run[0], run[0].current) && k <= |ReadySet(run[0])|
    ensures Refines(run[k], m') && ReadySet(run[k]) == ReadySet(run[0]) && run[k].current in ReadySet(run[0])
    ensures k < |ReadySet(run[0])| ==> |Before(ReadySet(run[0]), run[0].current, run[k].current)| == k
    ensures k == |ReadySet(run[0])| ==> run[k].current == run[0].current
    decreases k
  {
    var R, c0 := ReadySet(run[0]), run[0].current;
    if k == 0 {
      assert Before(R, c0, c0) == {};
      assert c0 in R;
      return m;
    }
    var m1 := Walk(run, m, k - 1);
    var s := run[k - 1];
    m' := TickStep(s, m1);
    WalkOn(s, c0, run[k].current);
    var behind := Before(R, c0, s.current);
    assert |behind + {s.current}| == k;
    if k == |R| {
      assert behind + {s.current} <= R;
      FullSubset(behind + {s.current}, R);
    }
  }

  lemma FullSubset(a: set<int>, b: set<int>)
    requires a <= b && |a| == |b|
    ensures a == b
  {
    assert |b - a| == |b| - |a|;
  }

  /** With L ready processes, the current one among them, L ticks visit every one exactly once and
      come back to the start. */
  lemma RoundRobin(run: seq<State>, m: Machine)
    requires TickRun(run) && |run| > 0 && Refines(run[0], m) && run[0].current != NONE
    requires Ready(run[0], run[0].current) && |run| == |ReadySet(run[0])| + 1
    ensures run[|run| - 1].current == run[0].current
    ensures forall i, j :: 0 <= i < j < |run| - 1 ==> run[i].current != run[j].current
    ensures forall p :: p in ReadySet(run[0]) ==> exists i :: 0 <= i < |run| - 1 && run[i].current == p
  {
    var R, c0, L := ReadySet(run[0]), run[0].current, |ReadySet(run[0])|;
    forall k | 0 <= k <= L
      ensures run[k].current in R
      ensures k < L ==> |Before(R, c0, run[k].current)| == k
      ensures k == L ==> run[k].current == c0
    {
      var _ := Walk(run, m, k);
    }
    var seen := Visited(run, L);
    FullSubset(seen, R);
  }

  lemma {:induction false} Visited(run: seq<State>, n: nat) returns (seen: set<int>)
    requires n <= |run| && forall i, j :: 0 <= i < j < n ==> run[i].current != run[j].current
    ensures |seen| == n && forall p :: p in seen <==> exists i :: 0 <= i < n && run[i].current == p
    decreases n
  {
    if n == 0 { return {}; }
    seen := Visited(run, n - 1);
    seen := seen + {run[n - 1].current};
  }
}
