// Model of _adsp_current_process_handle in src/adsp_current_process_stub.c: the
// first callers race to open a handle and to install it with one
// compare-and-exchange. Every read of the static variable is a step of its own.
module HandleCache {
  import opened Wrappers

  const INVALID: nat := 0xFFFF_FFFF // (remote_handle)-1

  datatype PC =
    | Idle
    | Opening
    | Test(tmp: nat) | Cas(tmp: nat) | Close(tmp: nat)
    | Read                // about to evaluate "return handle"
    | Returned(value: nat)
    | Refused             // returned -1 because open failed

  datatype Action = Go | Opens(handle: nat) | OpenFails

  // handle and threads are the program's state, open the handles the other side
  // holds open. serials number the opens; closed lists the closes by number.
  datatype State = State(handle: nat, threads: map<nat, PC>, open: map<nat, nat>, opens: nat, closed: seq<nat>)

  function Init(tids: set<nat>): State {
    State(INVALID, map t | t in tids :: Idle, map[], 0, [])
  }

  function To(s: State, t: nat, pc: PC): State {
    s.(threads := s.threads[t := pc])
  }

  function Next(s: State, t: nat, a: Action): Option<State> {
    if t !in s.threads then None else
    match (s.threads[t], a)
    case (Idle, Go) => Some(To(s, t, if s.handle != INVALID then Read else Opening))
    // remote_handle_open picks a value that is not in use
    case (Opening, Opens(h)) =>
      if h in s.open then None
      else Some(To(s.(open := s.open[h := s.opens], opens := s.opens + 1), t, Test(h)))
    case (Opening, OpenFails) => Some(To(s, t, Refused))
    case (Test(tmp), Go) => Some(To(s, t, if s.handle != INVALID then Close(tmp) else Cas(tmp)))
    case (Cas(tmp), Go) =>
      if s.handle == INVALID then Some(To(s.(handle := tmp), t, Read)) else Some(To(s, t, Close(tmp)))
    case (Close(tmp), Go) =>
      if tmp == INVALID || tmp !in s.open then Some(To(s, t, Read))
      else Some(To(s.(open := s.open - {tmp}, closed := s.closed + [s.open[tmp]]), t, Read))
    case (Read, Go) => Some(To(s, t, Returned(s.handle)))
    case (_, _) => None
  }

  function Run(s: State, trace: seq<(nat, Action)>): Option<State>
    decreases |trace|
  {
    if trace == [] then Some(s) else
    match Next(s, trace[0].0, trace[0].1)
    case None => None
    case Some(s') => Run(s', trace[1..])
  }

  // The handle a thread has opened and neither installed nor closed yet.
  ghost function Pending(pc: PC): Option<nat> {
    match pc
    case Test(tmp) => Some(tmp)
    case Cas(tmp) => Some(tmp)
    case Close(tmp) => Some(tmp)
    case _ => None
  }

  // Opens are numbered apart, and each is either still open or closed once.
  ghost predicate Ledger(open: map<nat, nat>, opens: nat, closed: seq<nat>) {
    && Distinct(closed)
    && (forall h {:trigger open[h]} :: h in open ==> open[h] < opens && open[h] !in closed)
    && (forall g, h :: g in open && h in open && open[g] == open[h] ==> g == h)
    && (forall id: nat :: id in closed ==> id < opens)
    && (forall id: nat {:trigger id in closed} :: id < opens ==> id in closed || exists h :: h in open && open[h] == id)
  }

  // A pending handle is open and not the installed one, callers return nothing
  // else than the installed one, and the invalid value can be read and returned
  // at the end only if open once reported it.
  ghost predicate ThreadOk(handle: nat, open: map<nat, nat>, pc: PC) {
    match pc
    case Test(tmp) => tmp in open && (tmp != INVALID ==> tmp != handle)
    case Cas(tmp) => tmp in open && (tmp != INVALID ==> tmp != handle)
    case Close(tmp) => tmp in open && (tmp != INVALID ==> tmp != handle) && handle != INVALID
    case Read => INVALID !in open ==> handle != INVALID
    case Returned(value) => if value == INVALID then INVALID in open else value == handle
    case _ => true
  }

  ghost predicate Threads(s: State) {
    && (s.handle != INVALID ==> s.handle in s.open)
    && forall t {:trigger s.threads[t]} :: t in s.threads ==> ThreadOk(s.handle, s.open, s.threads[t])
  }

  ghost predicate Apart(threads: map<nat, PC>) {
    forall t, u :: t in threads && u in threads && t != u && Pending(threads[t]).Some? ==>
      Pending(threads[t]) != Pending(threads[u])
  }

  // No open handle is forgotten.
  ghost predicate Covered(s: State) {
    forall h {:trigger h in s.open} :: h in s.open ==>
      h == s.handle || h == INVALID || exists t :: t in s.threads && Pending(s.threads[t]) == Some(h)
  }

  ghost predicate Inv(s: State) {
    Ledger(s.open, s.opens, s.closed) && Threads(s) && Apart(s.threads) && Covered(s)
  }

  lemma LedgerOpen(open: map<nat, nat>, opens: nat, closed: seq<nat>, h: nat)
    requires Ledger(open, opens, closed) && h !in open
    ensures Ledger(open[h := opens], opens + 1, closed)
  {
    var open' := open[h := opens];
    forall id: nat | id < opens + 1 && id !in closed ensures exists g :: g in open' && open'[g] == id {
      if id < opens {
        var g :| g in open && open[g] == id;
        assert g in open' && open'[g] == id;
      } else {
        assert h in open' && open'[h] == id;
      }
    }
  }

  lemma LedgerClose(open: map<nat, nat>, opens: nat, closed: seq<nat>, h: nat)
    requires Ledger(open, opens, closed) && h in open
    ensures Ledger(open - {h}, opens, closed + [open[h]])
  {
    var open', closed' := open - {h}, closed + [open[h]];
    assert forall id :: id in closed' <==> id in closed || id == open[h];
    forall id: nat | id < opens && id !in closed' ensures exists g :: g in open' && open'[g] == id {
      var g :| g in open && open[g] == id;
      assert g in open' && open'[g] == id;
    }
  }

  lemma CoveredStep(s: State, t: nat, a: Action)
    requires Covered(s) && Threads(s)
    ensures var r := Next(s, t, a); r.Some? ==> Covered(r.value)
  {
    var r := Next(s, t, a);
    if r.Some? {
      var s' := r.value;
      forall h | h in s'.open && h != s'.handle && h != INVALID
        ensures exists u :: u in s'.threads && Pending(s'.threads[u]) == Some(h)
      {
        if h in s.open && h != s.handle {
          var u :| u in s.threads && Pending(s.threads[u]) == Some(h);
          assert u in s'.threads;
        } else {
          assert t in s'.threads;
        }
      }
    }
  }

  lemma ThreadsStep(s: State, t: nat, a: Action)
    requires Threads(s) && Apart(s.threads)
    ensures var r := Next(s, t, a); r.Some? ==> Threads(r.value)
  {
    var r := Next(s, t, a);
    if r.Some? {
      var s' := r.value;
      forall u {:trigger s'.threads[u]} | u in s'.threads ensures ThreadOk(s'.handle, s'.open, s'.threads[u]) {
        if u != t {
          assert ThreadOk(s.handle, s.open, s.threads[u]);
          assert Pending(s.threads[t]).Some? ==> Pending(s.threads[t]) != Pending(s.threads[u]);
        }
      }
    }
  }

  lemma ApartStep(s: State, t: nat, a: Action)
    requires Threads(s) && Apart(s.threads)
    ensures var r := Next(s, t, a); r.Some? ==> Apart(r.value.threads)
  {
    assert forall u :: u in s.threads ==> ThreadOk(s.handle, s.open, s.threads[u]);
  }

  lemma StepInv(s: State, t: nat, a: Action)
    requires Inv(s)
    ensures var r := Next(s, t, a); r.Some? ==> Inv(r.value)
  {
    hide Ledger, Threads, Apart, Covered;
    CoveredStep(s, t, a);
    ThreadsStep(s, t, a);
    ApartStep(s, t, a);
    LedgerStep(s, t, a);
  }

  lemma LedgerStep(s: State, t: nat, a: Action)
    requires Ledger(s.open, s.opens, s.closed)
    ensures var r := Next(s, t, a); r.Some? ==> Ledger(r.value.open, r.value.opens, r.value.closed)
  {
    hide Ledger;
    if t in s.threads {
      match a {
        case Opens(h) =>
          if h !in s.open {
            LedgerOpen(s.open, s.opens, s.closed, h);
          }
        case _ =>
          if s.threads[t].Close? && s.threads[t].tmp in s.open {
            LedgerClose(s.open, s.opens, s.closed, s.threads[t].tmp);
          }
      }
    }
  }

  ghost predicate Reachable(tids: set<nat>, s: State) {
    exists trace :: Run(Init(tids), trace) == Some(s)
  }

  lemma {:induction false} RunInv(s: State, trace: seq<(nat, Action)>)
    requires Inv(s)
    ensures var r := Run(s, trace); r.Some? ==> Inv(r.value)
    ensures var r := Run(s, trace); r.Some? && s.handle != INVALID ==> r.value.handle == s.handle
    decreases |trace|
  {
    hide Inv;
    if trace != [] {
      var r := Next(s, trace[0].0, trace[0].1);
      if r.Some? {
        StepInv(s, trace[0].0, trace[0].1);
        RunInv(r.value, trace[1..]);
      }
    }
  }

  // At most one handle is ever installed: once set, the variable never changes
  // again, and every caller that returns a handle returns that one.
  lemma OneHandle(tids: set<nat>, s: State, trace: seq<(nat, Action)>, t: nat, u: nat)
    requires Reachable(tids, s) && t in s.threads && s.threads[t].Returned? && s.threads[t].value != INVALID
    ensures var r := Run(s, trace); r.Some? ==>
              r.value.handle == s.threads[t].value
              && (u in r.value.threads && r.value.threads[u].Returned? && r.value.threads[u].value != INVALID ==>
                    r.value.threads[u].value == s.threads[t].value)
  {
    var before :| Run(Init(tids), before) == Some(s);
    RunInv(Init(tids), before);
    assert ThreadOk(s.handle, s.open, s.threads[t]);
    RunInv(s, trace);
    var r := Run(s, trace);
    if r.Some? && u in r.value.threads {
      assert ThreadOk(r.value.handle, r.value.open, r.value.threads[u]);
    }
  }

  // A caller whose open did not fail returns the installed handle, unless open
  // reported success with the value that stands for none.
  lemma ReturnsHandle(tids: set<nat>, trace: seq<(nat, Action)>, s: State, t: nat)
    requires Run(Init(tids), trace) == Some(s) && t in s.threads && s.threads[t].Returned?
    ensures !OpenedInvalid(trace) ==> s.threads[t].value == s.handle != INVALID
  {
    hide Run, OpenedInvalid, Init;
    InitInv(tids);
    RunInv(Init(tids), trace);
    InvalidStays(Init(tids), trace);
    assert ThreadOk(s.handle, s.open, s.threads[t]);
  }

  // ----- what each caller gets -----

  // -1 for want of a handle is returned by those whose open failed, and only by
  // them.
  lemma {:induction false} RefusedIff(s: State, trace: seq<(nat, Action)>, t: nat)
    ensures var r := Run(s, trace);
            r.Some? && t in s.threads ==>
              && t in r.value.threads
              && (r.value.threads[t].Refused? <==> s.threads[t].Refused? || (t, OpenFails) in trace)
    decreases |trace|
  {
    if trace != [] && t in s.threads {
      var r := Next(s, trace[0].0, trace[0].1);
      if r.Some? {
        RefusedStep(s, trace[0].0, trace[0].1, t);
        RefusedIff(r.value, trace[1..], t);
        assert trace == [trace[0]] + trace[1..];
      }
    }
  }

  lemma RefusedStep(s: State, u: nat, a: Action, t: nat)
    requires t in s.threads
    ensures var r := Next(s, u, a);
            r.Some? ==>
              && t in r.value.threads
              && (r.value.threads[t].Refused? <==> s.threads[t].Refused? || (u, a) == (t, OpenFails))
  {
  }

  lemma RefusedTheorem(tids: set<nat>, trace: seq<(nat, Action)>, s: State, t: nat)
    requires Run(Init(tids), trace) == Some(s) && t in tids
    ensures t in s.threads && (s.threads[t].Refused? <==> (t, OpenFails) in trace)
  {
    RefusedIff(Init(tids), trace, t);
  }

  ghost function Steps(t: nat, n: nat): seq<(nat, Action)> {
    seq(n, _ => (t, Go))
  }

  lemma StepsMore(s: State, t: nat, n: nat)
    ensures var r := Next(s, t, Go);
            Run(s, Steps(t, n + 1)) == if r.None? then None else Run(r.value, Steps(t, n))
  {
    hide Next;
    assert Steps(t, n + 1)[1..] == Steps(t, n);
  }

  // A call that finds a handle installed returns it in two steps, and opens
  // and closes nothing.
  lemma HitPath(s: State, t: nat)
    requires t in s.threads && s.threads[t].Idle? && s.handle != INVALID
    ensures Run(s, Steps(t, 2)) == Some(To(s, t, Returned(s.handle)))
  {
    var s1 := To(s, t, Read);
    StepsMore(s, t, 1);
    StepsMore(s1, t, 0);
    assert Next(s, t, Go) == Some(s1);
    assert To(s1, t, Returned(s.handle)) == To(s, t, Returned(s.handle));
  }

  // A caller that has opened a handle when none is installed, and is not
  // disturbed, installs it and returns it.
  lemma InstallPath(s: State, t: nat, tmp: nat)
    requires t in s.threads && s.threads[t] == Test(tmp) && s.handle == INVALID
    ensures Run(s, Steps(t, 3)) == Some(To(s.(handle := tmp), t, Returned(tmp)))
  {
    var s1 := To(s, t, Cas(tmp));
    var s2 := To(s.(handle := tmp), t, Read);
    StepsMore(s, t, 2);
    StepsMore(s1, t, 1);
    StepsMore(s2, t, 0);
    assert Next(s, t, Go) == Some(s1);
    assert To(s1.(handle := tmp), t, Read) == s2;
    assert To(s2, t, Returned(tmp)) == To(s.(handle := tmp), t, Returned(tmp));
  }

  lemma ReachableOk(tids: set<nat>, s: State, t: nat)
    requires Reachable(tids, s) && t in s.threads
    ensures ThreadOk(s.handle, s.open, s.threads[t])
  {
    hide Run;
    var before :| Run(Init(tids), before) == Some(s);
    InitInv(tids);
    RunInv(Init(tids), before);
  }

  // One that has opened a handle when another is installed, found by its test or
  // by its compare-and-exchange, closes its own and returns the installed one. Only
  // the value that stands for none is not closed.
  lemma LosePath(tids: set<nat>, s: State, t: nat, tmp: nat)
    requires Reachable(tids, s) && t in s.threads && s.threads[t] in {Test(tmp), Cas(tmp)}
    requires s.handle != INVALID
    ensures tmp in s.open && tmp != s.handle
    ensures var done := if tmp == INVALID then s else s.(open := s.open - {tmp}, closed := s.closed + [s.open[tmp]]);
            Run(s, Steps(t, 3)) == Some(To(done, t, Returned(s.handle)))
  {
    ReachableOk(tids, s, t);
    var s1 := To(s, t, Close(tmp));
    var done := if tmp == INVALID then s else s.(open := s.open - {tmp}, closed := s.closed + [s.open[tmp]]);
    var s2 := To(done, t, Read);
    StepsMore(s, t, 2);
    StepsMore(s1, t, 1);
    StepsMore(s2, t, 0);
    assert Next(s, t, Go) == Some(s1);
    assert To(s1, t, Read) == To(s, t, Read);
    assert To(s1.(open := s.open - {tmp}, closed := s.closed + [s.open[tmp]]), t, Read)
           == To(s.(open := s.open - {tmp}, closed := s.closed + [s.open[tmp]]), t, Read);
    assert Next(s1, t, Go) == Some(s2);
    hide Reachable, Run;
    assert To(s2, t, Returned(s.handle)) == To(done, t, Returned(s.handle));
  }

  // A caller with nothing installed opens; what open reports it takes.
  lemma OpenPath(s: State, t: nat, h: nat)
    requires t in s.threads && s.threads[t].Idle? && s.handle == INVALID && h !in s.open
    ensures var first := Run(s, [(t, Go), (t, Opens(h))]);
            first == Some(To(s.(open := s.open[h := s.opens], opens := s.opens + 1), t, Test(h)))
    ensures Run(s, [(t, Go), (t, OpenFails)]) == Some(To(s, t, Refused))
  {
    var s1 := To(s, t, Opening);
    assert Next(s, t, Go) == Some(s1);
    RunTwo(s, t, Go, Opens(h));
    RunTwo(s, t, Go, OpenFails);
    var mine := s.(open := s.open[h := s.opens], opens := s.opens + 1);
    assert To(s1.(open := s.open[h := s.opens], opens := s.opens + 1), t, Test(h)) == To(mine, t, Test(h));
    assert To(s1, t, Refused) == To(s, t, Refused);
  }

  lemma RunTwo(s: State, t: nat, a: Action, b: Action)
    ensures var r := Next(s, t, a); Run(s, [(t, a), (t, b)]) == if r.None? then None else Next(r.value, t, b)
  {
    hide Next;
    RunOne(s, (t, a), [(t, b)]);
    if Next(s, t, a).Some? {
      RunOne(Next(s, t, a).value, (t, b), []);
    }
  }

  lemma RunOne(s: State, m: (nat, Action), rest: seq<(nat, Action)>)
    ensures var r := Next(s, m.0, m.1); Run(s, [m] + rest) == if r.None? then None else Run(r.value, rest)
    ensures Run(s, []) == Some(s)
  {
    hide Next;
    assert ([m] + rest)[0] == m && ([m] + rest)[1..] == rest;
  }

  ghost predicate Finished(s: State) {
    forall t {:trigger s.threads[t]} :: t in s.threads ==>
      s.threads[t].Idle? || s.threads[t].Returned? || s.threads[t].Refused?
  }

  // When all callers are done, every handle that was opened, except the
  // installed one, has been closed exactly once.
  ghost predicate AllButInstalledClosed(s: State) {
    && Distinct(s.closed)
    && (forall id: nat :: id in s.closed ==> id < s.opens)
    && (forall id: nat {:trigger id in s.closed} :: id < s.opens && id !in s.closed ==>
          s.handle != INVALID && s.handle in s.open && s.open[s.handle] == id)
    && (s.handle != INVALID ==> s.handle in s.open && s.open[s.handle] !in s.closed)
  }

  // In the run, open reported success with the value that stands for no handle.
  ghost predicate OpenedInvalid(trace: seq<(nat, Action)>) {
    exists i :: 0 <= i < |trace| && trace[i].1 == Opens(INVALID)
  }

  lemma {:induction false} InvalidStays(s: State, trace: seq<(nat, Action)>)
    ensures var r := Run(s, trace);
            r.Some? ==> (INVALID in r.value.open <==> INVALID in s.open || OpenedInvalid(trace))
    decreases |trace|
  {
    if trace != [] {
      var r := Next(s, trace[0].0, trace[0].1);
      if r.Some? {
        InvalidStays(r.value, trace[1..]);
        hide Next, Run;
        assert OpenedInvalid(trace) <==> trace[0].1 == Opens(INVALID) || OpenedInvalid(trace[1..]) by {
          if i :| 0 <= i < |trace[1..]| && trace[1..][i].1 == Opens(INVALID) {
            assert trace[i + 1].1 == Opens(INVALID);
          }
          if i :| 0 <= i < |trace| && trace[i].1 == Opens(INVALID) {
            assert i > 0 ==> trace[1..][i - 1].1 == Opens(INVALID);
          }
        }
      }
    }
  }

  // That holds exactly if open never reported success with the value that
  // stands for no handle.
  lemma AllClosedIff(tids: set<nat>, trace: seq<(nat, Action)>, s: State)
    requires Run(Init(tids), trace) == Some(s) && Finished(s)
    ensures AllButInstalledClosed(s) <==> !OpenedInvalid(trace)
  {
    hide Run, OpenedInvalid, Init;
    InitInv(tids);
    RunInv(Init(tids), trace);
    InvalidStays(Init(tids), trace);
    assert forall t :: t in s.threads ==> Pending(s.threads[t]).None?;
    if INVALID !in s.open {
      forall id: nat | id < s.opens && id !in s.closed
        ensures s.handle != INVALID && s.handle in s.open && s.open[s.handle] == id
      {
        var h :| h in s.open && s.open[h] == id;
      }
    } else {
      assert s.open[INVALID] < s.opens && s.open[INVALID] !in s.closed;
    }
  }

  // Such a run: the handle stays open, is not the installed one, and the caller
  // whose open succeeded returns -1.
  lemma LeakRun(t: nat) returns (trace: seq<(nat, Action)>, s: State)
    ensures trace == [(t, Go), (t, Opens(INVALID)), (t, Go), (t, Go), (t, Go)] && OpenedInvalid(trace)
    ensures Run(Init({t}), trace) == Some(s)
    ensures Finished(s) && !AllButInstalledClosed(s)
    ensures t in s.threads && s.threads[t] == Returned(INVALID)
  {
    trace := [(t, Go), (t, Opens(INVALID)), (t, Go), (t, Go), (t, Go)];
    assert trace[1].1 == Opens(INVALID);
    var s0 := Init({t});
    var s1 := To(s0, t, Opening);
    var s2 := To(s1.(open := map[INVALID := 0], opens := 1), t, Test(INVALID));
    var s3 := To(s2, t, Cas(INVALID));
    var s4 := To(s3, t, Read);
    s := To(s4, t, Returned(INVALID));
    assert s0.open[INVALID := 0] == map[INVALID := 0];
    assert Next(s0, t, Go) == Some(s1) && Next(s1, t, Opens(INVALID)) == Some(s2);
    assert Next(s2, t, Go) == Some(s3) && Next(s3, t, Go) == Some(s4) && Next(s4, t, Go) == Some(s);
    hide Next;
    assert trace[1..][1..][1..][1..][1..] == [];
    assert Run(s4, trace[4..]) == Some(s);
    assert trace[3..][1..] == trace[4..] && Run(s3, trace[3..]) == Some(s);
    assert trace[2..][1..] == trace[3..] && Run(s2, trace[2..]) == Some(s);
    assert trace[1..][1..] == trace[2..] && Run(s1, trace[1..]) == Some(s);
    assert 0 !in s.closed && s.opens == 1 && s.handle == INVALID;
  }

  lemma InitInv(tids: set<nat>)
    ensures Inv(Init(tids)) && Init(tids).open == map[]
  {
  }
}
