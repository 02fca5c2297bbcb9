/** The clock daemon's lock file, first as interleaved file-system steps of any number of
  * processes, then as the guarded tick of one process.
  */
module ClockLock {
  import opened Wrappers

  // ------------------------------------------------------------------ interleaved processes

  /** Where a process stands between two file-system steps. */
  datatype Place =
    | Idle             // not trying, refused, or done
    | StatPending      // saw the lock file, has not read its age
    | UnlinkPending    // read an age above the limit
    | OpenPending      // about to create the file exclusively
    | WritePending     // created the file, has not written its pid
    | Inside           // acquired: evaluating the cycle
    | ReleasePending   // leaving: closed the descriptor, has not removed the file

  predicate Holding(pl: Place) {
    pl == WritePending || pl == Inside || pl == ReleasePending
  }

  /** `file` is the modification time of the lock file; `orphaned` says that a failed write left it behind. */
  datatype World = World(file: Option<int>, now: int, places: map<nat, Place>, orphaned: bool)

  const START := World(None, 0, map[], false)

  function At(w: World, p: nat): Place {
    if p in w.places then w.places[p] else Idle
  }

  function Move(w: World, p: nat, pl: Place): World {
    w.(places := w.places[p := pl])
  }

  datatype Action =
    | CheckExists(p: nat)
    | Stat(p: nat)
    | Unlink(p: nat)
    | OpenExclusive(p: nat)
    | WritePid(p: nat, succeeds: bool)
    | Leave(p: nat)
    | Remove(p: nat)
    | Pass(time: nat)

  predicate IsStale(w: World, limit: nat) {
    w.file.Some? && w.now - w.file.value > limit
  }

  /** One step of one process, or the passing of time; a step that is not due changes nothing. */
  function Do(w: World, limit: nat, a: Action): World {
    match a
    case CheckExists(p) =>
      if At(w, p) != Idle then w else Move(w, p, if w.file.Some? then StatPending else OpenPending)
    case Stat(p) =>
      if At(w, p) != StatPending then w
      else if w.file.None? then Move(w, p, Idle)
      else Move(w, p, if IsStale(w, limit) then UnlinkPending else OpenPending)
    case Unlink(p) =>
      if At(w, p) != UnlinkPending then w else Move(w, p, OpenPending).(file := None, orphaned := false)
    case OpenExclusive(p) =>
      if At(w, p) != OpenPending then w
      else if w.file.Some? then Move(w, p, Idle)
      else Move(w, p, WritePending).(file := Some(w.now))
    case WritePid(p, succeeds) =>
      if At(w, p) != WritePending then w
      else if succeeds then Move(w, p, Inside)
      else Move(w, p, Idle).(orphaned := true)
    case Leave(p) =>
      if At(w, p) != Inside then w else Move(w, p, ReleasePending)
    case Remove(p) =>
      if At(w, p) != ReleasePending then w else Move(w, p, Idle).(file := None)
    case Pass(time) => w.(now := w.now + time)
  }

  function Run(w: World, limit: nat, actions: seq<Action>): World {
    if actions == [] then w
    else Do(Run(w, limit, actions[..|actions| - 1]), limit, actions[|actions| - 1])
  }

  /** The step removes the lock file of a process that holds it. */
  ghost predicate UnlinksHeld(w: World, a: Action) {
    a.Unlink? && At(w, a.p) == UnlinkPending && exists q :: Holding(At(w, q))
  }

  ghost predicate NeverUnlinksHeld(limit: nat, actions: seq<Action>) {
    forall i {:trigger actions[i]} :: 0 <= i < |actions| ==> !UnlinksHeld(Run(START, limit, actions[..i]), actions[i])
  }

  ghost predicate AtMostOne(w: World) {
    forall p, q :: Holding(At(w, p)) && Holding(At(w, q)) ==> p == q
  }

  /** At most one process holds; the file exists exactly while one does, or after a failed write. */
  ghost predicate Exclusive(w: World) {
    && AtMostOne(w)
    && (w.file.Some? <==> w.orphaned || exists p :: Holding(At(w, p)))
    && (w.orphaned ==> forall p :: !Holding(At(w, p)))
  }

  lemma ExclusiveStep(w: World, limit: nat, a: Action)
    requires Exclusive(w) && !UnlinksHeld(w, a)
    ensures Exclusive(Do(w, limit, a))
  {
    match a {
      case OpenExclusive(p) => OpenKeeps(w, limit, p);
      case WritePid(p, succeeds) => WriteKeeps(w, limit, p, succeeds);
      case Remove(p) => RemoveKeeps(w, limit, p);
      case Unlink(p) => UnlinkKeeps(w, limit, p);
      case Pass(time) => PassKeeps(w, time);
      case Leave(p) =>
        if At(w, p) == Inside {
          NeutralMove(w, p, ReleasePending);
        }
      case CheckExists(p) =>
        if At(w, p) == Idle {
          NeutralMove(w, p, if w.file.Some? then StatPending else OpenPending);
        }
      case Stat(p) =>
        if At(w, p) == StatPending {
          NeutralMove(w, p, At(Do(w, limit, a), p));
        }
    }
  }

  lemma PassKeeps(w: World, time: nat)
    requires Exclusive(w)
    ensures Exclusive(w.(now := w.now + time))
  {
    var w' := w.(now := w.now + time);
    forall p ensures At(w', p) == At(w, p) {
    }
    if p :| Holding(At(w, p)) {
      assert Holding(At(w', p));
    }
  }

  /** A move that neither starts nor ends a hold and does not touch the file. */
  lemma NeutralMove(w: World, p: nat, pl: Place)
    requires Exclusive(w) && (Holding(pl) <==> Holding(At(w, p)))
    ensures Exclusive(Move(w, p, pl))
  {
    var w' := Move(w, p, pl);
    assert forall q :: At(w', q) == if q == p then pl else At(w, q);
    assert forall q :: Holding(At(w', q)) <==> Holding(At(w, q));
  }

  lemma OpenKeeps(w: World, limit: nat, p: nat)
    requires Exclusive(w)
    ensures Exclusive(Do(w, limit, OpenExclusive(p)))
  {
    if At(w, p) == OpenPending {
      if w.file.Some? {
        NeutralMove(w, p, Idle);
      } else {
        var w' := Do(w, limit, OpenExclusive(p));
        assert forall q :: At(w', q) == if q == p then WritePending else At(w, q);
        assert Holding(At(w', p));
      }
    }
  }

  lemma WriteKeeps(w: World, limit: nat, p: nat, succeeds: bool)
    requires Exclusive(w)
    ensures Exclusive(Do(w, limit, WritePid(p, succeeds)))
  {
    if At(w, p) == WritePending {
      if succeeds {
        NeutralMove(w, p, Inside);
      } else {
        var w' := Do(w, limit, WritePid(p, succeeds));
        assert Holding(At(w, p));
        assert forall q :: At(w', q) == if q == p then Idle else At(w, q);
      }
    }
  }

  lemma RemoveKeeps(w: World, limit: nat, p: nat)
    requires Exclusive(w)
    ensures Exclusive(Do(w, limit, Remove(p)))
  {
    if At(w, p) == ReleasePending {
      var w' := Do(w, limit, Remove(p));
      assert Holding(At(w, p));
      assert forall q :: At(w', q) == if q == p then Idle else At(w, q);
    }
  }

  lemma UnlinkKeeps(w: World, limit: nat, p: nat)
    requires Exclusive(w) && !UnlinksHeld(w, Unlink(p))
    ensures Exclusive(Do(w, limit, Unlink(p)))
  {
    if At(w, p) == UnlinkPending {
      var w' := Do(w, limit, Unlink(p));
      assert forall q :: At(w', q) == if q == p then OpenPending else At(w, q);
      assert forall q :: !Holding(At(w, q));
    }
  }

  lemma NeverUnlinksHeldPrefix(limit: nat, actions: seq<Action>, n: nat)
    requires NeverUnlinksHeld(limit, actions) && n <= |actions|
    ensures NeverUnlinksHeld(limit, actions[..n])
  {
    forall i | 0 <= i < n ensures !UnlinksHeld(Run(START, limit, actions[..n][..i]), actions[..n][i]) {
      assert actions[..n][..i] == actions[..i] && actions[..n][i] == actions[i];
    }
  }

  /** Safety over every run that never removes the file of a holder: at most one process holds. Stale files
    * may be recovered any number of times.
    */
  lemma {:induction false} RunsAreExclusive(limit: nat, actions: seq<Action>)
    requires NeverUnlinksHeld(limit, actions)
    ensures Exclusive(Run(START, limit, actions))
    decreases |actions|
  {
    if actions == [] {
      assert forall p :: At(START, p) == Idle;
    } else {
      var n := |actions| - 1;
      NeverUnlinksHeldPrefix(limit, actions, n);
      RunsAreExclusive(limit, actions[..n]);
      assert !UnlinksHeld(Run(START, limit, actions[..n]), actions[n]);
      ExclusiveStep(Run(START, limit, actions[..n]), limit, actions[n]);
    }
  }

  /** No two processes are ever inside the guarded cycle. */
  lemma MutualExclusion(limit: nat, actions: seq<Action>, p: nat, q: nat)
    requires NeverUnlinksHeld(limit, actions)
    requires At(Run(START, limit, actions), p) == Inside && At(Run(START, limit, actions), q) == Inside
    ensures p == q
  {
    RunsAreExclusive(limit, actions);
  }

  // ------------------------------------------------------------------ the condition is exact

  predicate NoUnlink(actions: seq<Action>) {
    forall i :: 0 <= i < |actions| ==> !actions[i].Unlink?
  }

  /** However the run is continued at any of its points, short of another removal, at most one process holds. */
  ghost predicate ExclusiveThroughout(limit: nat, actions: seq<Action>) {
    forall i, more :: 0 <= i <= |actions| && NoUnlink(more) ==> AtMostOne(Run(START, limit, actions[..i] + more))
  }

  lemma ContinuationHarmless(limit: nat, actions: seq<Action>, more: seq<Action>)
    requires NeverUnlinksHeld(limit, actions) && NoUnlink(more)
    ensures NeverUnlinksHeld(limit, actions + more)
  {
    var all := actions + more;
    forall i | 0 <= i < |all| ensures !UnlinksHeld(Run(START, limit, all[..i]), all[i]) {
      if i < |actions| {
        assert all[..i] == actions[..i] && all[i] == actions[i];
      } else {
        assert all[i] == more[i - |actions|];
      }
    }
  }

  lemma RunSnoc(w: World, limit: nat, actions: seq<Action>, a: Action)
    ensures Run(w, limit, actions + [a]) == Do(Run(w, limit, actions), limit, a)
  {
    assert (actions + [a])[..|actions|] == actions;
  }

  /** Removing the file of a holder lets the remover in next to it. */
  lemma RemoverGetsIn(w: World, limit: nat, p: nat)
    requires UnlinksHeld(w, Unlink(p))
    ensures !AtMostOne(Do(Do(w, limit, Unlink(p)), limit, OpenExclusive(p)))
  {
    var q :| Holding(At(w, q));
    var w' := Do(Do(w, limit, Unlink(p)), limit, OpenExclusive(p));
    assert At(w', p) == WritePending && At(w', q) == At(w, q) && p != q;
  }

  /** Exclusion holds at every point of a run and of its continuations exactly when the run never removes
    * the file of a process that holds it.
    */
  lemma ExclusionExactly(limit: nat, actions: seq<Action>)
    ensures NeverUnlinksHeld(limit, actions) <==> ExclusiveThroughout(limit, actions)
  {
    if NeverUnlinksHeld(limit, actions) {
      forall i, more | 0 <= i <= |actions| && NoUnlink(more) ensures AtMostOne(Run(START, limit, actions[..i] + more)) {
        NeverUnlinksHeldPrefix(limit, actions, i);
        ContinuationHarmless(limit, actions[..i], more);
        RunsAreExclusive(limit, actions[..i] + more);
      }
    } else {
      var i :| 0 <= i < |actions| && UnlinksHeld(Run(START, limit, actions[..i]), actions[i]);
      HeldFileRemoved(limit, actions, i);
    }
  }

  lemma HeldFileRemoved(limit: nat, actions: seq<Action>, i: nat)
    requires i < |actions| && UnlinksHeld(Run(START, limit, actions[..i]), actions[i])
    ensures !ExclusiveThroughout(limit, actions)
  {
    var open := [OpenExclusive(actions[i].p)];
    assert actions[..i + 1] == actions[..i] + [actions[i]];
    RunSnoc(START, limit, actions[..i], actions[i]);
    RunSnoc(START, limit, actions[..i + 1], open[0]);
    RemoverGetsIn(Run(START, limit, actions[..i]), limit, actions[i].p);
    assert NoUnlink(open) && !AtMostOne(Run(START, limit, actions[..i + 1] + open));
  }

  // ------------------------------------------------------------------ runs that never see a stale file

  /** No process ever reads an age above the limit. */
  ghost predicate NeverReadsStale(limit: nat, actions: seq<Action>) {
    forall i {:trigger actions[i]} :: 0 <= i < |actions| && actions[i].Stat?
        && At(Run(START, limit, actions[..i]), actions[i].p) == StatPending
      ==> !IsStale(Run(START, limit, actions[..i]), limit)
  }

  lemma NobodyRemovesStep(w: World, limit: nat, a: Action)
    requires forall p :: At(w, p) != UnlinkPending
    requires a.Stat? && At(w, a.p) == StatPending ==> !IsStale(w, limit)
    ensures forall p :: At(Do(w, limit, a), p) != UnlinkPending
  {
    if a.Pass? {
      assert forall p :: At(Do(w, limit, a), p) == At(w, p);
    } else {
      assert forall p :: p != a.p ==> At(Do(w, limit, a), p) == At(w, p);
    }
  }

  lemma {:induction false} NobodyRemoves(limit: nat, actions: seq<Action>, n: nat)
    requires NeverReadsStale(limit, actions) && n <= |actions|
    ensures forall p :: At(Run(START, limit, actions[..n]), p) != UnlinkPending
  {
    if n == 0 {
      assert forall p :: At(START, p) == Idle;
    } else {
      NobodyRemoves(limit, actions, n - 1);
      assert actions[..n] == actions[..n - 1] + [actions[n - 1]];
      RunSnoc(START, limit, actions[..n - 1], actions[n - 1]);
      NobodyRemovesStep(Run(START, limit, actions[..n - 1]), limit, actions[n - 1]);
    }
  }

  /** So exclusion needs no more than locks that never grow stale. */
  lemma NeverStaleIsExclusive(limit: nat, actions: seq<Action>)
    requires NeverReadsStale(limit, actions)
    ensures NeverUnlinksHeld(limit, actions) && Exclusive(Run(START, limit, actions))
  {
    forall i | 0 <= i < |actions| ensures !UnlinksHeld(Run(START, limit, actions[..i]), actions[i]) {
      NobodyRemoves(limit, actions, i);
    }
    RunsAreExclusive(limit, actions);
  }

  // ------------------------------------------------------------------ what the lock lets through

  lemma RunFive(w: World, limit: nat, a: Action, b: Action, c: Action, d: Action, e: Action)
    ensures Run(w, limit, [a, b, c, d, e]) == Do(Do(Do(Do(Do(w, limit, a), limit, b), limit, c), limit, d), limit, e)
  {
    RunSnoc(w, limit, [a, b, c, d], e);
    RunSnoc(w, limit, [a, b, c], d);
    RunSnoc(w, limit, [a, b], c);
    RunSnoc(w, limit, [a], b);
    RunSnoc(w, limit, [], a);
    assert [a, b, c, d] + [e] == [a, b, c, d, e];
    assert [a, b, c] + [d] == [a, b, c, d];
    assert [a, b] + [c] == [a, b, c];
    assert [a] + [b] == [a, b];
    assert [] + [a] == [a];
  }

  /** Where a process goes from reading the age: on to the removal exactly when the file is older than the limit, to the
    * attempt to open it when it is not, and back when it has gone meanwhile.
    */
  lemma StatLeads(w: World, limit: nat, p: nat)
    requires At(w, p) == StatPending
    ensures At(Do(w, limit, Stat(p)), p) ==
              match w.file
              case None => Idle
              case Some(created) => if created + limit < w.now then UnlinkPending else OpenPending
    ensures Do(w, limit, Stat(p)).file == w.file
  {
  }

  /** A process that finds a file that is not too old is turned away, and the file stays. */
  lemma FreshLockHolds(w: World, limit: nat, q: nat, succeeds: bool)
    requires At(w, q) == Idle && w.file.Some? && w.now <= w.file.value + limit
    ensures var w' := Run(w, limit, [CheckExists(q), Stat(q), Unlink(q), OpenExclusive(q), WritePid(q, succeeds)]);
            At(w', q) == Idle && w'.file == w.file
  {
    RunFive(w, limit, CheckExists(q), Stat(q), Unlink(q), OpenExclusive(q), WritePid(q, succeeds));
    var w1 := Do(w, limit, CheckExists(q));
    var w2 := Do(w1, limit, Stat(q));
    assert At(w2, q) == OpenPending && Do(w2, limit, Unlink(q)) == w2;
  }

  /** A process that is done gives the lock back, and then the next one gets it. */
  lemma HandOver(w: World, limit: nat, p: nat, q: nat)
    requires At(w, p) == Inside && At(w, q) == Idle && p != q
    ensures var w' := Run(w, limit, [Leave(p), Remove(p), CheckExists(q), OpenExclusive(q), WritePid(q, true)]);
            At(w', p) == Idle && At(w', q) == Inside && w'.file == Some(w.now)
  {
    RunFive(w, limit, Leave(p), Remove(p), CheckExists(q), OpenExclusive(q), WritePid(q, true));
    var w1 := Do(w, limit, Leave(p));
    var w2 := Do(w1, limit, Remove(p));
    assert w2.file.None? && At(w2, q) == Idle;
    var w3 := Do(w2, limit, CheckExists(q));
    var w4 := Do(w3, limit, OpenExclusive(q));
    assert At(w4, q) == WritePending && At(w4, p) == Idle;
  }

  // ------------------------------------------------------------------ how exclusion is lost

  lemma {:induction false} RunAppend(w: World, limit: nat, before: seq<Action>, more: seq<Action>)
    ensures Run(w, limit, before + more) == Run(Run(w, limit, before), limit, more)
    decreases |more|
  {
    if more == [] {
      assert before + more == before;
    } else {
      var n := |more| - 1;
      assert (before + more)[..|before| + n] == before + more[..n];
      RunAppend(w, limit, before, more[..n]);
    }
  }

  function Steal(q: nat): seq<Action> {
    [CheckExists(q), Stat(q), Unlink(q), OpenExclusive(q), WritePid(q, true)]
  }

  /** Behind a lock file that has grown stale, any idle process gets inside next to the holder. */
  lemma StaleLockIsStolen(w: World, limit: nat, p: nat, q: nat)
    requires At(w, p) == Inside && At(w, q) == Idle && IsStale(w, limit)
    ensures At(Run(w, limit, Steal(q)), p) == Inside && At(Run(w, limit, Steal(q)), q) == Inside
  {
    var w1 := Do(w, limit, CheckExists(q));
    var w2 := Do(w1, limit, Stat(q));
    var w3 := Do(w2, limit, Unlink(q));
    var w4 := Do(w3, limit, OpenExclusive(q));
    var w5 := Do(w4, limit, WritePid(q, true));
    assert At(w5, q) == Inside && At(w5, p) == Inside;
    RunFive(w, limit, CheckExists(q), Stat(q), Unlink(q), OpenExclusive(q), WritePid(q, true));
  }

  /** One process opens the file and writes its pid, or fails to, and then time passes. */
  function Grow(succeeds: bool, limit: nat): seq<Action> {
    [CheckExists(0), OpenExclusive(0), WritePid(0, succeeds), Pass(limit), Pass(1)]
  }

  lemma GrownStale(succeeds: bool, limit: nat)
    ensures var w := Run(START, limit, Grow(succeeds, limit));
            && IsStale(w, limit) && At(w, 0) == (if succeeds then Inside else Idle)
            && forall p :: p != 0 ==> At(w, p) == Idle
  {
    var w1 := Do(START, limit, CheckExists(0));
    var w2 := Do(w1, limit, OpenExclusive(0));
    var w3 := Do(w2, limit, WritePid(0, succeeds));
    RunFive(START, limit, CheckExists(0), OpenExclusive(0), WritePid(0, succeeds), Pass(limit), Pass(1));
    assert w3.file == Some(0) && w3.now == 0;
  }

  /** From the start: a cycle that runs longer than the limit is joined by a second process. */
  lemma StolenFromStart(limit: nat)
    ensures var w := Run(START, limit, Grow(true, limit) + Steal(1));
            At(w, 0) == Inside && At(w, 1) == Inside
  {
    GrownStale(true, limit);
    RunAppend(START, limit, Grow(true, limit), Steal(1));
    StaleLockIsStolen(Run(START, limit, Grow(true, limit)), limit, 0, 1);
  }

  /** Two processes read the stale age, and the first one removes the file. */
  function BothRead(p: nat, q: nat): seq<Action> {
    [CheckExists(p), Stat(p), CheckExists(q), Stat(q), Unlink(p)]
  }

  /** The first one enters, and the second one removes the new file and enters too. */
  function BothEnter(p: nat, q: nat): seq<Action> {
    [OpenExclusive(p), WritePid(p, true), Unlink(q), OpenExclusive(q), WritePid(q, true)]
  }

  lemma ReadTogether(w: World, limit: nat, p: nat, q: nat)
    requires p != q && At(w, p) == Idle && At(w, q) == Idle && IsStale(w, limit)
    ensures var w' := Run(w, limit, BothRead(p, q));
            At(w', p) == OpenPending && At(w', q) == UnlinkPending && w'.file == None
  {
    var w1 := Do(w, limit, CheckExists(p));
    var w2 := Do(w1, limit, Stat(p));
    var w3 := Do(w2, limit, CheckExists(q));
    var w4 := Do(w3, limit, Stat(q));
    assert At(w4, p) == UnlinkPending && At(w4, q) == UnlinkPending;
    RunFive(w, limit, CheckExists(p), Stat(p), CheckExists(q), Stat(q), Unlink(p));
  }

  lemma EnterTogether(w: World, limit: nat, p: nat, q: nat)
    requires p != q && At(w, p) == OpenPending && At(w, q) == UnlinkPending && w.file == None
    ensures var w' := Run(w, limit, BothEnter(p, q));
            At(w', p) == Inside && At(w', q) == Inside
  {
    var w1 := Do(w, limit, OpenExclusive(p));
    var w2 := Do(w1, limit, WritePid(p, true));
    var w3 := Do(w2, limit, Unlink(q));
    var w4 := Do(w3, limit, OpenExclusive(q));
    assert At(w4, p) == Inside && At(w4, q) == WritePending;
    RunFive(w, limit, OpenExclusive(p), WritePid(p, true), Unlink(q), OpenExclusive(q), WritePid(q, true));
  }

  /** From the start, although no live holder's lock is ever old: after one failed write, two processes that
    * recover the file together both get inside.
    */
  lemma RecoverersRace(limit: nat)
    ensures var w := Run(START, limit, Grow(false, limit) + BothRead(1, 2) + BothEnter(1, 2));
            At(w, 1) == Inside && At(w, 2) == Inside
  {
    GrownStale(false, limit);
    RunAppend(START, limit, Grow(false, limit), BothRead(1, 2));
    ReadTogether(Run(START, limit, Grow(false, limit)), limit, 1, 2);
    RunAppend(START, limit, Grow(false, limit) + BothRead(1, 2), BothEnter(1, 2));
    EnterTogether(Run(START, limit, Grow(false, limit) + BothRead(1, 2)), limit, 1, 2);
  }

  // ------------------------------------------------------------------ one guarded tick

  /** What a collaborator answers, or that it throws. */
  datatype Answer<+T> = Gives(value: T) | Throws

  datatype Gate = LockGate | GovernorGate | KernelGate | BreakerGate(index: nat) | EvaluateGate

  datatype TickResult = OverlapLock | GovernorLocked | SystemHalt | BreakerOpen | Success | OtherException

  class FileSystem {
    var lockFile: Option<int>
  }

  class FileLock {
    const fs: FileSystem
    const staleAfter: nat
    var fd: bool

    constructor (fs: FileSystem, staleAfter: nat)
      ensures this.fs == fs && this.staleAfter == staleAfter && !fd
    {
      this.fs, this.staleAfter, fd := fs, staleAfter, false;
    }

    /** `acquire` without interference; a failed write leaves the new file behind, with its descriptor. */
    method Acquire(now: int, writeSucceeds: bool) returns (acquired: bool)
      requires !fd
      modifies this, fs
      ensures acquired <==>
                writeSucceeds && (old(fs.lockFile).None? || now - old(fs.lockFile).value > staleAfter)
      ensures fd == (old(fs.lockFile).None? || now - old(fs.lockFile).value > staleAfter)
      ensures fs.lockFile == if fd then Some(now) else old(fs.lockFile)
    {
      if fs.lockFile.Some? && now - fs.lockFile.value > staleAfter {
        fs.lockFile := None;
      }
      if fs.lockFile.Some? {
        return false;
      }
      fs.lockFile, fd := Some(now), true;
      return writeSucceeds;
    }

    method Release()
      modifies this, fs
      ensures !fd && fs.lockFile == None
    {
      fd := false;
      fs.lockFile := None;
    }
  }

  /** The gates a tick passes: the answers it gets, in the order it asks. */
  datatype Collaborators = Collaborators(
    governor: Answer<bool>, kernelFailure: Answer<bool>, breakersOpen: seq<Answer<bool>>, evaluate: Answer<bool>)

  /** The first breaker that is open or throws, or the number of breakers. */
  function FirstBad(bs: seq<Answer<bool>>): (i: nat)
    ensures i <= |bs|
    ensures forall j :: 0 <= j < i ==> bs[j] == Gives(false)
    ensures i < |bs| ==> bs[i] != Gives(false)
  {
    if bs == [] || bs[0] != Gives(false) then 0 else 1 + FirstBad(bs[1..])
  }

  predicate AllClear(c: Collaborators) {
    && c.governor == Gives(true) && c.kernelFailure == Gives(false)
    && forall i :: 0 <= i < |c.breakersOpen| ==> c.breakersOpen[i] == Gives(false)
  }

  /** The body under the lock; `asked` records which gates were consulted, in order. */
  method GuardedBody(c: Collaborators) returns (r: TickResult, asked: seq<Gate>)
    ensures EvaluateGate in asked <==> AllClear(c)
    ensures r == Success <==> AllClear(c) && c.evaluate.Gives?
    ensures r == SystemHalt <==> c.governor == Gives(true) && c.kernelFailure == Gives(true)
    ensures r == GovernorLocked <==> c.governor == Gives(false)
    ensures r == BreakerOpen <==>
              && c.governor == Gives(true) && c.kernelFailure == Gives(false)
              && FirstBad(c.breakersOpen) < |c.breakersOpen| && c.breakersOpen[FirstBad(c.breakersOpen)] == Gives(true)
    ensures r != OverlapLock
    // a gate that is not clear, in this order, decides the result and ends the asking
    ensures c.governor != Gives(true) ==> asked == [GovernorGate] && r in {GovernorLocked, OtherException}
    ensures c.governor == Gives(true) && c.kernelFailure != Gives(false) ==>
              asked == [GovernorGate, KernelGate] && r in {SystemHalt, OtherException}
    ensures (exists answer :: answer in c.breakersOpen && answer != Gives(false)) ==>
              EvaluateGate !in asked && r != Success
    // the gates are asked in the fixed order, each only after the one before it let the tick through
    ensures asked != [] && asked[0] == GovernorGate
    ensures |asked| > 1 ==> asked[1] == KernelGate && c.governor == Gives(true)
    ensures forall i :: 2 <= i < |asked| ==>
        asked[i] == BreakerGate(i - 2) || (asked[i] == EvaluateGate && i == |asked| - 1)
  {
    asked := [GovernorGate];
    if c.governor.Throws? {
      return OtherException, asked;
    }
    if !c.governor.value {
      return GovernorLocked, asked;
    }
    asked := asked + [KernelGate];
    if c.kernelFailure.Throws? {
      return OtherException, asked;
    }
    if c.kernelFailure.value {
      return SystemHalt, asked;
    }
    var i := 0;
    while i < |c.breakersOpen|
      invariant 0 <= i <= |c.breakersOpen|
      invariant |asked| == i + 2 && asked[0] == GovernorGate && asked[1] == KernelGate
      invariant forall k :: 2 <= k < |asked| ==> asked[k] == BreakerGate(k - 2)
      invariant forall k :: 0 <= k < i ==> c.breakersOpen[k] == Gives(false)
    {
      asked := asked + [BreakerGate(i)];
      if c.breakersOpen[i].Throws? {
        return OtherException, asked;
      }
      if c.breakersOpen[i].value {
        return BreakerOpen, asked;
      }
      i := i + 1;
    }
    asked := asked + [EvaluateGate];
    assert asked[|asked| - 1] == EvaluateGate;
    r := if c.evaluate.Gives? then Success else OtherException;
  }

  /** `tick_once`: whatever the body does, an acquired lock is released; only a failed write leaves a file. */
  method TickOnce(fs: FileSystem, staleAfter: nat, now: int, writeSucceeds: bool, c: Collaborators)
    returns (r: TickResult, asked: seq<Gate>)
    modifies fs
    ensures var opens := old(fs.lockFile).None? || now - old(fs.lockFile).value > staleAfter;
            && (r == OverlapLock <==> !(opens && writeSucceeds))
            && fs.lockFile == (if !opens then old(fs.lockFile) else if writeSucceeds then None else Some(now))
            && (EvaluateGate in asked <==> opens && writeSucceeds && AllClear(c))
    ensures asked != [] && asked[0] == LockGate
  {
    var lock := new FileLock(fs, staleAfter);
    var acquired := lock.Acquire(now, writeSucceeds);
    asked := [LockGate];
    if !acquired {
      return OverlapLock, asked;
    }
    var rest;
    r, rest := GuardedBody(c);
    asked := asked + rest;
    lock.Release();
  }
}
