/**
 * The hot-reload host as two threads over shared flags, one atomic read or write to a step. The file is written by
 * somebody else: each write is atomic and carries a strictly newer modification time. Nobody but the watch thread
 * sets the quit flag, and the app runs until it sees that flag.
 */
module ReloadProtocol {
  import opened DllSettle
  import opened Wrappers
  import DllHost

  type Content = nat

  /** The next thing the main thread does. */
  datatype MainPc =
    | TestQuit
    | InRun
    | TestRequest
    | Stat
    | Copy(modified: nat)
    | Open(modified: nat, copied: Content)
    | ClearRequest
    | ClearQuit
    | Exited
    | Panicked

  /** The next thing the watch thread does. */
  datatype WatchPc =
    | Polling
    | TestingRequest(modified: nat)
    | Deciding(modified: nat)
    | Asking
    | Telling

  datatype Host = Host(
    present: bool, mtime: nat, content: Content,
    quit: bool, requested: bool, lastModified: nat, image: Option<Content>,
    main: MainPc, attempts: nat,
    watch: WatchPc, settle: Settle,
    polls: nat  // decisions taken since the request flag was last cleared
  )

  /** A step: the file is written or removed, or a thread moves; `ok` is whether the call it makes succeeds. */
  datatype Action = Write(content: Content, gap: nat) | Remove | Main(ok: bool) | Watch(ok: bool)

  /** A load attempt that came to nothing: try again, or give up after the last. */
  function Failed(s: Host): Host {
    s.(attempts := s.attempts + 1, main := if s.attempts + 1 >= DllHost.LOAD_ATTEMPTS then Panicked else Stat)
  }

  function StepMain(s: Host, ok: bool): Host {
    match s.main
    case TestQuit => s.(main := if s.quit then Exited else InRun)
    case InRun => if s.quit then s.(main := TestRequest) else s
    case TestRequest => if s.requested then s.(main := Stat, attempts := 0, image := None) else s.(main := TestQuit)
    case Stat => if s.present && ok then s.(main := Copy(s.mtime)) else Failed(s)
    case Copy(modified) => if s.present && ok then s.(main := Open(modified, s.content)) else Failed(s)
    case Open(modified, copied) =>
      if ok then s.(main := ClearRequest, image := Some(copied), lastModified := modified) else Failed(s)
    case ClearRequest => s.(main := ClearQuit, requested := false, polls := 0)
    case ClearQuit => s.(main := TestQuit, quit := false)
    case Exited => s
    case Panicked => s
  }

  /** Outside app_run the watch thread is held back after `bound` decisions; this is the timing assumption. */
  predicate MayDecide(s: Host, bound: nat) {
    s.main.InRun? || s.polls < bound
  }

  function StepWatch(s: Host, ok: bool, bound: nat): Host {
    match s.watch
    case Polling => if s.present && ok then s.(watch := TestingRequest(s.mtime)) else s
    case TestingRequest(modified) => s.(watch := if s.requested then Polling else Deciding(modified))
    case Deciding(modified) =>
      if !MayDecide(s, bound) then s
      else if Settles(s.settle, s.lastModified, modified) then
        s.(watch := Asking, settle := NOTHING_SEEN, polls := s.polls + 1)
      else s.(watch := Polling, settle := Fed(s.settle, s.lastModified, modified), polls := s.polls + 1)
    case Asking => s.(watch := Telling, requested := true)
    case Telling => s.(watch := Polling, quit := true)
  }

  function Step(s: Host, a: Action, bound: nat): Host {
    match a
    case Write(content, gap) => s.(present := true, mtime := s.mtime + 1 + gap, content := content)
    case Remove => s.(present := false)
    case Main(ok) => StepMain(s, ok)
    case Watch(ok) => StepWatch(s, ok, bound)
  }

  function Run(s: Host, acts: seq<Action>, bound: nat): Host {
    if acts == [] then s else Step(Run(s, acts[..|acts| - 1], bound), acts[|acts| - 1], bound)
  }

  /** The watch thread has just been started, after the first load; the file may have been written since. */
  ghost predicate Initial(s: Host) {
    && s.main == TestQuit && s.watch == Polling && s.settle == NOTHING_SEEN && s.polls == 0
    && !s.quit && !s.requested
    && s.image.Some? && UpToDate(s)
  }

  // ---- Up to date when quiet ---------------------------------------------------------------------------------

  /** An image taken under a modification time that is still the file's is the file's content. */
  ghost predicate UpToDate(s: Host) {
    && s.lastModified <= s.mtime
    && (s.image.Some? && s.lastModified == s.mtime ==> s.image.value == s.content)
  }

  /** The same of a load in progress: the time is read before the copy is made. */
  ghost predicate LoadConsistent(s: Host) {
    match s.main
    case Copy(modified) => modified <= s.mtime
    case Open(modified, copied) => modified <= s.mtime && (modified == s.mtime ==> copied == s.content)
    case _ => true
  }

  lemma StepKeepsUpToDate(s: Host, a: Action, bound: nat)
    requires UpToDate(s) && LoadConsistent(s)
    ensures UpToDate(Step(s, a, bound)) && LoadConsistent(Step(s, a, bound))
  {
  }

  lemma {:induction false} RunKeepsUpToDate(s: Host, acts: seq<Action>, bound: nat)
    requires UpToDate(s) && LoadConsistent(s)
    ensures UpToDate(Run(s, acts, bound)) && LoadConsistent(Run(s, acts, bound))
  {
    if acts != [] {
      hide Step, UpToDate, LoadConsistent;
      RunKeepsUpToDate(s, acts[..|acts| - 1], bound);
      StepKeepsUpToDate(Run(s, acts[..|acts| - 1], bound), acts[|acts| - 1], bound);
    }
  }

  /**
   * Whatever the interleaving of writes, removals, failed and successful loads: whenever the file still has the time
   * recorded for the loaded image, the image is the file's content.
   */
  lemma UpToDateWhenQuiet(s: Host, acts: seq<Action>, bound: nat)
    requires Initial(s)
    ensures UpToDate(Run(s, acts, bound)) && LoadConsistent(Run(s, acts, bound))
  {
    RunKeepsUpToDate(s, acts, bound);
  }

  // ---- No reload makes the app leave its loop and none is lost --------------------------------------------------

  /** The flags, thread by thread, that every step keeps when at most two decisions fit outside app_run. */
  ghost predicate Coordinated(s: Host, bound: nat) {
    match s.main
    case TestQuit =>
      && !s.requested && !s.quit && s.image.Some?
      && !s.watch.Asking? && !s.watch.Telling? && s.settle.stablePolls <= s.polls <= bound
    case InRun =>
      && s.image.Some?
      && (s.requested || s.watch.Asking? ==> s.settle == NOTHING_SEEN)
      && match s.watch {
           case Polling => s.quit == s.requested
           case TestingRequest(_) => s.quit == s.requested
           case Deciding(_) => !s.requested && !s.quit
           case Asking => !s.requested && !s.quit
           case Telling => s.requested && !s.quit
         }
    case ClearQuit =>
      && !s.requested && s.quit && s.image.Some?
      && !s.watch.Asking? && !s.watch.Telling? && s.settle.stablePolls <= s.polls <= bound
    case Exited => false
    case Panicked => s.image.None?
    case _ =>
      && s.requested && s.quit && (s.watch.Polling? || s.watch.TestingRequest?) && s.settle == NOTHING_SEEN
      && (s.main.ClearRequest? || s.main.TestRequest? <==> s.image.Some?)
  }

  lemma StepKeepsCoordinated(s: Host, a: Action, bound: nat)
    requires Coordinated(s, bound) && bound < SETTLE_POLLS
    ensures Coordinated(Step(s, a, bound), bound)
  {
  }

  /** The app is running, a reload has been asked for, and nothing will ever make it return to perform it. */
  predicate Lost(s: Host) {
    s.main.InRun? && s.requested && !s.quit && (s.watch.Polling? || s.watch.TestingRequest?)
  }

  /**
   * A reload has gone wrong: the app left its loop over it, or the request cannot be served any more. A panic after
   * forty failed attempts is not counted here; PanicsIffFortyFail says when that happens.
   */
  predicate GoneWrong(s: Host) {
    s.main.Exited? || Lost(s)
  }

  /** A lost request stays lost whatever happens next. */
  lemma LostForGood(s: Host, a: Action, bound: nat)
    requires Lost(s)
    ensures Lost(Step(s, a, bound))
  {
  }

  lemma {:induction false} RunsStayCoordinated(s: Host, acts: seq<Action>, bound: nat)
    requires Initial(s) && bound < SETTLE_POLLS
    ensures Coordinated(Run(s, acts, bound), bound)
  {
    if acts != [] {
      hide Step, Coordinated;
      RunsStayCoordinated(s, acts[..|acts| - 1], bound);
      StepKeepsCoordinated(Run(s, acts[..|acts| - 1], bound), acts[|acts| - 1], bound);
    }
  }

  lemma RunOneMore(s: Host, acts: seq<Action>, a: Action, bound: nat)
    ensures Run(s, acts + [a], bound) == Step(Run(s, acts, bound), a, bound)
  {
    hide Step;
    assert (acts + [a])[..|acts|] == acts;
  }

  lemma OneLonger(first: seq<Action>, rest: seq<Action>)
    requires rest != []
    ensures var before, last := rest[..|rest| - 1], rest[|rest| - 1];
      rest == before + [last] && first + rest == (first + before) + [last]
  {
  }

  lemma {:induction false} RunAppends(s: Host, first: seq<Action>, rest: seq<Action>, bound: nat)
    ensures Run(s, first + rest, bound) == Run(Run(s, first, bound), rest, bound)
    decreases |rest|
  {
    if rest == [] {
      hide Step;
      assert first + rest == first;
    } else {
      hide *;
      var before, last := rest[..|rest| - 1], rest[|rest| - 1];
      OneLonger(first, rest);
      RunAppends(s, first, before, bound);
      RunOneMore(s, first + before, last, bound);
      RunOneMore(Run(s, first, bound), before, last, bound);
    }
  }

  lemma RunOne(s: Host, a: Action, bound: nat)
    ensures Run(s, [a], bound) == Step(s, a, bound)
  {
    assert [a][..0] == [];
  }

  /** Some run leads from one state to the other. */
  ghost predicate Reaches(s: Host, s': Host, bound: nat) {
    exists acts :: Run(s, acts, bound) == s'
  }

  lemma Then(s: Host, s': Host, s'': Host, bound: nat, rest: seq<Action>)
    requires Reaches(s, s', bound) && Run(s', rest, bound) == s''
    ensures Reaches(s, s'', bound)
  {
    var acts :| Run(s, acts, bound) == s';
    RunAppends(s, acts, rest, bound);
  }

  /** A run of one thread's successful steps. */
  function Times(a: Action, n: nat): seq<Action> {
    seq(n, i => a)
  }

  lemma OneMore(s: Host, a: Action, n: nat, bound: nat)
    ensures Run(s, Times(a, n + 1), bound) == Step(Run(s, Times(a, n), bound), a, bound)
  {
    assert Times(a, n + 1)[..n] == Times(a, n);
  }

  /** Three decisions in one window are enough for a request to be raised there. */
  lemma ThreePollsAsk(s: Host, bound: nat)
    requires bound >= SETTLE_POLLS
    requires s.present && s.watch == Polling && s.settle == NOTHING_SEEN && s.polls == 0
    requires !s.requested && s.mtime != s.lastModified
    ensures Run(s, Times(Watch(true), 11), bound) == s.(requested := true, quit := true, polls := 3)
  {
    var watch := Watch(true);
    forall n: nat | n < 11
      ensures Run(s, Times(watch, n + 1), bound) == Step(Run(s, Times(watch, n), bound), watch, bound)
    {
      OneMore(s, watch, n, bound);
    }
    var m := s.mtime;
    assert Run(s, Times(watch, 0), bound) == s;
    assert Run(s, Times(watch, 0 + 1), bound) == s.(watch := TestingRequest(m));
    assert Run(s, Times(watch, 1 + 1), bound) == s.(watch := Deciding(m));
    var s3 := s.(settle := Settle(m, 1), polls := 1);
    assert Run(s, Times(watch, 2 + 1), bound) == s3;
    assert Run(s, Times(watch, 3 + 1), bound) == s3.(watch := TestingRequest(m));
    assert Run(s, Times(watch, 4 + 1), bound) == s3.(watch := Deciding(m));
    var s6 := s.(settle := Settle(m, 2), polls := 2);
    assert Run(s, Times(watch, 5 + 1), bound) == s6;
    assert Run(s, Times(watch, 6 + 1), bound) == s6.(watch := TestingRequest(m));
    assert Run(s, Times(watch, 7 + 1), bound) == s6.(watch := Deciding(m));
    assert Run(s, Times(watch, 8 + 1), bound) == s.(watch := Asking, polls := 3);
    assert Run(s, Times(watch, 9 + 1), bound) == s.(watch := Telling, polls := 3, requested := true);
    assert Run(s, Times(watch, 10 + 1), bound) == s.(polls := 3, requested := true, quit := true);
  }

  /** The race at start-up: three polls before the loop's first test of the quit flag, and the app leaves at once. */
  lemma EarlyRequestEndsApp(s: Host, bound: nat)
    requires bound >= SETTLE_POLLS && Initial(s) && s.present && s.mtime != s.lastModified
    ensures Run(s, Times(Watch(true), 11) + [Main(true)], bound).main.Exited?
  {
    ThreePollsAsk(s, bound);
    RunAppends(s, Times(Watch(true), 11), [Main(true)], bound);
    RunOne(Run(s, Times(Watch(true), 11), bound), Main(true), bound);
  }

  lemma MainSteps(s: Host, n: nat, bound: nat)
    requires n > 0
    ensures Run(s, Times(Main(true), n), bound) == StepMain(Run(s, Times(Main(true), n - 1), bound), true)
  {
    OneMore(s, Main(true), n - 1, bound);
  }

  /** Main serving a request it has been told of, up to but not including clearing the quit flag. */
  lemma ServesRequest(s: Host, bound: nat)
    requires s.main.InRun? && s.requested && s.quit && s.present
    ensures Run(s, Times(Main(true), 6), bound)
         == s.(main := ClearQuit, requested := false, polls := 0, attempts := 0,
               image := Some(s.content), lastModified := s.mtime)
  {
    var s0, unloaded := Run(s, Times(Main(true), 0), bound), s.(attempts := 0, image := None);
    assert s0 == s;
    MainSteps(s, 1, bound);
    assert Run(s, Times(Main(true), 1), bound) == s.(main := TestRequest);
    MainSteps(s, 2, bound);
    assert Run(s, Times(Main(true), 2), bound) == unloaded.(main := Stat);
    MainSteps(s, 3, bound);
    assert Run(s, Times(Main(true), 3), bound) == unloaded.(main := Copy(s.mtime));
    MainSteps(s, 4, bound);
    assert Run(s, Times(Main(true), 4), bound) == unloaded.(main := Open(s.mtime, s.content));
    MainSteps(s, 5, bound);
    var loaded := s.(attempts := 0, image := Some(s.content), lastModified := s.mtime);
    assert Run(s, Times(Main(true), 5), bound) == loaded.(main := ClearRequest);
    MainSteps(s, 6, bound);
  }

  /**
   * The race at the two clearing stores: three polls between them raise a request whose quit flag the second store
   * then wipes out.
   */
  lemma LateRequestIsLost(s: Host, bound: nat, content: Content)
    requires bound >= SETTLE_POLLS && Initial(s) && s.present && s.mtime != s.lastModified
    ensures exists acts :: Lost(Run(s, acts, bound))
  {
    RunOne(s, Main(true), bound);
    var running := s.(main := InRun);
    ThreePollsAsk(running, bound);
    var asked := running.(requested := true, quit := true, polls := 3);
    ServesRequest(asked, bound);
    var cleared := Run(asked, Times(Main(true), 6), bound);
    var written := Step(cleared, Write(content, 0), bound);
    RunOne(cleared, Write(content, 0), bound);
    ThreePollsAsk(written, bound);
    var askedAgain := written.(requested := true, quit := true, polls := 3);
    RunOne(askedAgain, Main(true), bound);
    var wiped := askedAgain.(main := TestQuit, quit := false);
    RunOne(wiped, Main(true), bound);
    var lost := wiped.(main := InRun);
    assert Run(s, [], bound) == s;
    Then(s, s, running, bound, [Main(true)]);
    Then(s, running, asked, bound, Times(Watch(true), 11));
    Then(s, asked, cleared, bound, Times(Main(true), 6));
    Then(s, cleared, written, bound, [Write(content, 0)]);
    Then(s, written, askedAgain, bound, Times(Watch(true), 11));
    Then(s, askedAgain, wiped, bound, [Main(true)]);
    Then(s, wiped, lost, bound, [Main(true)]);
  }

  /**
   * Under every interleaving no reload makes the app leave its loop and no request is lost, exactly when at most two
   * polls can be decided between clearing the request flag (or starting the thread) and being back in app_run: one
   * fewer than the three in a row that settle a change.
   */
  lemma ReloadsSafeIffTwoPolls(bound: nat)
    ensures (forall s, acts | Initial(s) :: !GoneWrong(Run(s, acts, bound))) <==> bound < SETTLE_POLLS
  {
    if bound < SETTLE_POLLS {
      forall s, acts | Initial(s) ensures !GoneWrong(Run(s, acts, bound)) {
        RunsStayCoordinated(s, acts, bound);
      }
    } else {
      var s := Host(true, 1, 0, false, false, 0, Some(0), TestQuit, 0, Polling, NOTHING_SEEN, 0);
      EarlyRequestEndsApp(s, bound);
      assert Initial(s) && GoneWrong(Run(s, Times(Watch(true), 11) + [Main(true)], bound));
    }
  }

  // ---- Every request is served ---------------------------------------------------------------------------------

  /** Nothing fails and the file stays: writes, watch thread steps and successful main thread steps. */
  predicate Smooth(acts: seq<Action>) {
    forall a | a in acts :: a.Write? || a.Watch? || a == Main(true)
  }

  function MainMoves(acts: seq<Action>): nat {
    if acts == [] then 0
    else MainMoves(acts[..|acts| - 1]) + (if acts[|acts| - 1].Main? then 1 else 0)
  }

  /** How many moves of the main thread are left until the new image is in. */
  function MovesToLoad(main: MainPc): nat {
    match main
    case InRun => 5
    case TestRequest => 4
    case Stat => 3
    case Copy(_) => 2
    case Open(_, _) => 1
    case _ => 0
  }

  /** A load in progress, or just done, is of the file as it was at the time m or later. */
  ghost predicate LoadSince(s: Host, m: nat) {
    && s.mtime >= m
    && match s.main
       case Copy(modified) => modified >= m
       case Open(modified, _) => modified >= m
       case ClearRequest => s.lastModified >= m
       case _ => true
  }

  lemma StepKeepsLoadSince(s: Host, a: Action, bound: nat, m: nat)
    requires LoadSince(s, m) && !s.main.ClearRequest?
    ensures LoadSince(Step(s, a, bound), m)
  {
  }

  /** An image is in that is no older than the file was when the request was told, and is the file if that is quiet. */
  ghost predicate Served(s: Host, s': Host) {
    && s'.main.ClearRequest? && s'.image.Some? && s'.lastModified >= s.mtime
    && (UpToDate(s) ==> UpToDate(s'))
  }

  /** The request is still being served, and this many moves of the main thread have been made towards it. */
  ghost predicate Serving(s: Host, bound: nat, m: nat, moves: nat) {
    && Coordinated(s, bound) && s.requested && s.quit && s.present && LoadSince(s, m)
    && MovesToLoad(s.main) > 0 && MovesToLoad(s.main) + moves == 5
  }

  lemma StepServes(s: Host, a: Action, bound: nat, m: nat, moves: nat)
    requires Serving(s, bound, m, moves) && bound < SETTLE_POLLS
    requires a.Write? || a.Watch? || a == Main(true)
    ensures var s' := Step(s, a, bound);
      || Serving(s', bound, m, moves + if a.Main? then 1 else 0)
      || (s'.main.ClearRequest? && s'.image.Some? && s'.lastModified >= m)
  {
    StepKeepsCoordinated(s, a, bound);
    StepKeepsLoadSince(s, a, bound, m);
  }

  /**
   * Along a smooth run from a told request, a new image is in after five moves of main at the latest: one no older
   * than the file was when main was told.
   */
  lemma {:induction false} RequestIsServed(s: Host, acts: seq<Action>, bound: nat)
    requires Coordinated(s, bound) && bound < SETTLE_POLLS
    requires s.main.InRun? && s.requested && s.quit && s.present
    requires Smooth(acts)
    ensures
      || (exists k | 0 <= k <= |acts| :: Served(s, Run(s, acts[..k], bound)))
      || Serving(Run(s, acts, bound), bound, s.mtime, MainMoves(acts))
    ensures MainMoves(acts) >= 5 ==> exists k | 0 <= k <= |acts| :: Served(s, Run(s, acts[..k], bound))
  {
    if acts != [] {
      hide Step, Coordinated, LoadSince;
      var before, a := acts[..|acts| - 1], acts[|acts| - 1];
      RequestIsServed(s, before, bound);
      if k :| 0 <= k <= |before| && Served(s, Run(s, before[..k], bound)) {
        assert acts[..k] == before[..k];
      } else {
        assert a in acts && acts[..|acts|] == acts;
        StepServes(Run(s, before, bound), a, bound, s.mtime, MainMoves(before));
        if UpToDate(s) {
          RunKeepsUpToDate(s, acts, bound);
        }
        assert Run(s, acts, bound).main.ClearRequest? ==> Served(s, Run(s, acts[..|acts|], bound));
      }
    }
  }

  // ---- Every change is asked for ---------------------------------------------------------------------------------

  /** Both threads move, nothing fails and nobody touches the file. */
  predicate Still(acts: seq<Action>) {
    forall a | a in acts :: a == Main(true) || a == Watch(true)
  }

  lemma StillParts(first: seq<Action>, rest: seq<Action>)
    requires Still(first + rest)
    ensures Still(first) && Still(rest)
  {
    forall a | a in first || a in rest ensures a == Main(true) || a == Watch(true) {
      assert a in first + rest;
    }
  }

  function WatchMoves(acts: seq<Action>): nat {
    if acts == [] then 0
    else WatchMoves(acts[..|acts| - 1]) + (if acts[|acts| - 1].Watch? then 1 else 0)
  }

  /** How many more readings of the time m settle it. */
  function ReadingsLeft(settle: Settle, m: nat): nat {
    if settle.candidate == m && settle.stablePolls > 0 then
      if settle.stablePolls >= SETTLE_POLLS then 1 else SETTLE_POLLS - settle.stablePolls
    else SETTLE_POLLS
  }

  /** How many moves of the watch thread are left at most until main is told of the file's time m. */
  function MovesToTell(watch: WatchPc, settle: Settle, m: nat): nat {
    match watch
    case Polling => 3 * ReadingsLeft(settle, m) + 2
    case TestingRequest(modified) => 3 * (if modified == m then ReadingsLeft(settle, m) else SETTLE_POLLS + 1) + 1
    case Deciding(modified) => 3 * (if modified == m then ReadingsLeft(settle, m) else SETTLE_POLLS + 1)
    case Asking => 2
    case Telling => 1
  }

  /** The app runs and the file is not the one loaded. */
  ghost predicate Stale(s: Host, bound: nat) {
    Coordinated(s, bound) && s.main.InRun? && s.present && s.mtime != s.lastModified
  }

  predicate Told(s: Host) {
    s.main.InRun? && s.requested && s.quit
  }

  /** The file, and what is recorded of it, are as they were. */
  predicate SameFile(s: Host, s': Host) {
    s'.present == s.present && s'.mtime == s.mtime && s'.content == s.content && s'.lastModified == s.lastModified
  }

  lemma StepTells(s: Host, a: Action, bound: nat)
    requires Stale(s, bound) && !s.quit && bound < SETTLE_POLLS
    requires a == Main(true) || a == Watch(true)
    ensures var s' := Step(s, a, bound);
      && Stale(s', bound) && SameFile(s, s')
      && (s'.quit ==> Told(s'))
      && (!s'.quit ==> MovesToTell(s'.watch, s'.settle, s.mtime) + (if a.Watch? then 1 else 0)
                       <= MovesToTell(s.watch, s.settle, s.mtime))
  {
    StepKeepsCoordinated(s, a, bound);
  }

  /** While a changed file holds still, main is told of it after thirteen moves of the watch thread at the latest. */
  lemma {:induction false} ChangeIsTold(s: Host, acts: seq<Action>, bound: nat)
    requires Stale(s, bound) && bound < SETTLE_POLLS && Still(acts)
    ensures WatchMoves(acts) >= 13 ==>
      exists k | 0 <= k <= |acts| ::
        var s' := Run(s, acts[..k], bound); Told(s') && Stale(s', bound) && SameFile(s, s')
  {
    if s.quit {
      assert Run(s, acts[..0], bound) == s;
    } else {
      TellsOrComesNearer(s, acts, bound);
    }
  }

  lemma {:induction false} TellsOrComesNearer(s: Host, acts: seq<Action>, bound: nat)
    requires Stale(s, bound) && !s.quit && bound < SETTLE_POLLS && Still(acts)
    ensures
      || (exists k | 0 <= k <= |acts| ::
            var s' := Run(s, acts[..k], bound); Told(s') && Stale(s', bound) && SameFile(s, s'))
      || (var s' := Run(s, acts, bound);
          && Stale(s', bound) && !s'.quit && SameFile(s, s')
          && MovesToTell(s'.watch, s'.settle, s.mtime) + WatchMoves(acts) <= MovesToTell(s.watch, s.settle, s.mtime))
  {
    if acts != [] {
      hide Step, Stale, MovesToTell;
      var before, a := acts[..|acts| - 1], acts[|acts| - 1];
      assert acts == before + [a];
      StillParts(before, [a]);
      TellsOrComesNearer(s, before, bound);
      if k :| 0 <= k <= |before|
              && var s' := Run(s, before[..k], bound); Told(s') && Stale(s', bound) && SameFile(s, s')
      {
        assert acts[..k] == before[..k];
      } else {
        assert a in [a] && acts[..|acts|] == acts;
        StepTells(Run(s, before, bound), a, bound);
        assert Told(Run(s, acts, bound)) ==> Told(Run(s, acts[..|acts|], bound));
      }
    }
  }

  lemma StepKeepsFile(s: Host, a: Action, bound: nat)
    requires a.Main? || a.Watch?
    ensures var s' := Step(s, a, bound); s'.present == s.present && s'.mtime == s.mtime && s'.content == s.content
  {
  }

  lemma {:induction false} StillKeepsFile(s: Host, acts: seq<Action>, bound: nat)
    requires Still(acts)
    ensures var s' := Run(s, acts, bound); s'.present == s.present && s'.mtime == s.mtime && s'.content == s.content
  {
    if acts != [] {
      hide Step;
      var before, a := acts[..|acts| - 1], acts[|acts| - 1];
      assert acts == before + [a] && a in acts;
      StillParts(before, [a]);
      StillKeepsFile(s, before, bound);
      StepKeepsFile(Run(s, before, bound), a, bound);
    }
  }

  lemma {:induction false} MainMovesAdd(first: seq<Action>, rest: seq<Action>)
    ensures MainMoves(first + rest) == MainMoves(first) + MainMoves(rest)
  {
    if rest == [] {
      assert first + rest == first;
    } else {
      MainMovesAdd(first, rest[..|rest| - 1]);
      assert (first + rest)[..|first + rest| - 1] == first + rest[..|rest| - 1];
    }
  }

  /** The file as it is in s is loaded and recorded. */
  predicate Loaded(s: Host, s': Host) {
    s'.main.ClearRequest? && s'.image == Some(s.content) && s'.lastModified == s.mtime
  }

  lemma ToldIsLoaded(s: Host, acts: seq<Action>, bound: nat)
    requires Told(s) && Stale(s, bound) && UpToDate(s) && bound < SETTLE_POLLS
    requires Still(acts) && MainMoves(acts) >= 5
    ensures exists k | 0 <= k <= |acts| :: Loaded(s, Run(s, acts[..k], bound))
  {
    hide Run, Coordinated, MainMoves;
    RequestIsServed(s, acts, bound);
    var k :| 0 <= k <= |acts| && Served(s, Run(s, acts[..k], bound));
    assert acts == acts[..k] + acts[k..];
    StillParts(acts[..k], acts[k..]);
    StillKeepsFile(s, acts[..k], bound);
  }

  /**
   * Every change that holds still is loaded: from any reachable state in which the app runs and the file on disk is not
   * the one loaded, the watch thread's next thirteen moves and main's five after them bring in exactly that file.
   */
  lemma ChangeIsLoaded(s: Host, first: seq<Action>, rest: seq<Action>, bound: nat)
    requires Stale(s, bound) && UpToDate(s) && bound < SETTLE_POLLS
    requires Still(first + rest) && WatchMoves(first) >= 13 && MainMoves(rest) >= 5
    ensures exists k | 0 <= k <= |first + rest| :: Loaded(s, Run(s, (first + rest)[..k], bound))
  {
    hide Run, Still, Coordinated, MainMoves, WatchMoves;
    var acts := first + rest;
    StillParts(first, rest);
    ChangeIsTold(s, first, bound);
    var k :| 0 <= k <= |first|
          && var s' := Run(s, first[..k], bound); Told(s') && Stale(s', bound) && SameFile(s, s');
    var told, next := Run(s, first[..k], bound), first[k..] + rest;
    assert acts == first[..k] + next;
    StillParts(first[..k], next);
    MainMovesAdd(first[k..], rest);
    RunKeepsUpToDate(s, first[..k], bound);
    ToldIsLoaded(told, next, bound);
    var j :| 0 <= j <= |next| && Loaded(told, Run(told, next[..j], bound));
    RunAppends(s, first[..k], next[..j], bound);
    assert acts[..k + j] == first[..k] + next[..j];
  }

  // ---- What makes the watch thread ask ---------------------------------------------------------------------------

  /** The reading the watch thread is about to decide on. */
  function ReadingOf(s: Host): Reading
    requires s.watch.Deciding?
  {
    Reading(s.lastModified, s.watch.modified)
  }

  /** The readings after one more step; three in a row that agree make the thread ask, and it starts afresh. */
  ghost function WithReading(s: Host, a: Action, bound: nat, readings: seq<Reading>): seq<Reading> {
    if !(a.Watch? && s.watch.Deciding? && MayDecide(s, bound)) then readings
    else
      var more := readings + [ReadingOf(s)];
      if HeldFor(more, SETTLE_POLLS, s.watch.modified) then [] else more
  }

  /** The readings decided on along the run since the thread last asked. */
  ghost function ReadingsIn(s: Host, acts: seq<Action>, bound: nat): seq<Reading> {
    if acts == [] then []
    else
      var before := acts[..|acts| - 1];
      WithReading(Run(s, before, bound), acts[|acts| - 1], bound, ReadingsIn(s, before, bound))
  }

  lemma StepFeeds(s: Host, a: Action, bound: nat, readings: seq<Reading>)
    requires s.settle == FedAll(readings)
    ensures Step(s, a, bound).settle == FedAll(WithReading(s, a, bound, readings))
    ensures s.watch.Deciding? && MayDecide(s, bound) && a.Watch? ==>
      (Step(s, a, bound).watch == Asking <==> HeldFor(readings + [ReadingOf(s)], SETTLE_POLLS, s.watch.modified))
  {
    if s.watch.Deciding? {
      var more := readings + [ReadingOf(s)];
      assert more[..|readings|] == readings;
      SettlesAfterThreeInARow(more);
    }
    hide HeldFor;
  }

  /**
   * On every run the detector has been fed exactly the readings decided on since the thread last asked: polls that
   * fail, or come while a request stands, leave it alone.
   */
  lemma {:induction false} DetectorIsFedReadings(s: Host, acts: seq<Action>, bound: nat)
    requires Initial(s)
    ensures Run(s, acts, bound).settle == FedAll(ReadingsIn(s, acts, bound))
  {
    if acts != [] {
      hide Step, WithReading;
      var before := acts[..|acts| - 1];
      DetectorIsFedReadings(s, before, bound);
      StepFeeds(Run(s, before, bound), acts[|acts| - 1], bound, ReadingsIn(s, before, bound));
    }
  }

  /** So the thread asks for a reload exactly when its last three readings agree and none was the loaded time. */
  lemma AsksAfterThreeReadings(s: Host, acts: seq<Action>, bound: nat, ok: bool)
    requires Initial(s)
    requires var s' := Run(s, acts, bound); s'.watch.Deciding? && MayDecide(s', bound)
    ensures var s' := Run(s, acts, bound);
      Step(s', Watch(ok), bound).watch == Asking
      <==> HeldFor(ReadingsIn(s, acts, bound) + [ReadingOf(s')], SETTLE_POLLS, s'.watch.modified)
  {
    DetectorIsFedReadings(s, acts, bound);
    StepFeeds(Run(s, acts, bound), Watch(ok), bound, ReadingsIn(s, acts, bound));
  }

  // ---- Only forty failures end the app ---------------------------------------------------------------------------

  /** The call of a load attempt that main is about to make comes to nothing. */
  predicate CallFails(s: Host, ok: bool) {
    match s.main
    case Stat => !(s.present && ok)
    case Copy(_) => !(s.present && ok)
    case Open(_, _) => !ok
    case _ => false
  }

  /** The count of failed attempts after one more step; a reload that begins starts it afresh. */
  function Counted(s: Host, a: Action, failures: nat): nat {
    if !a.Main? then failures
    else if s.main.TestRequest? then 0
    else if CallFails(s, a.ok) then failures + 1
    else failures
  }

  /** How many attempts have failed along the run since a reload last began. */
  function FailuresIn(s: Host, acts: seq<Action>, bound: nat): nat {
    if acts == [] then 0
    else
      var before := acts[..|acts| - 1];
      Counted(Run(s, before, bound), acts[|acts| - 1], FailuresIn(s, before, bound))
  }

  /** Main has panicked exactly when forty attempts have failed, and knows the count while it is trying. */
  predicate CountsFailures(s: Host, failures: nat) {
    && failures <= DllHost.LOAD_ATTEMPTS
    && (s.main.Panicked? <==> failures == DllHost.LOAD_ATTEMPTS)
    && (s.main.Stat? || s.main.Copy? || s.main.Open? ==> s.attempts == failures)
  }

  lemma StepCountsFailures(s: Host, a: Action, bound: nat, failures: nat)
    requires CountsFailures(s, failures)
    ensures CountsFailures(Step(s, a, bound), Counted(s, a, failures))
  {
  }

  /** On every run, whatever the timing, main has panicked exactly when forty attempts of one reload have failed. */
  lemma {:induction false} PanicsIffFortyFail(s: Host, acts: seq<Action>, bound: nat)
    requires Initial(s)
    ensures Run(s, acts, bound).main.Panicked? <==> FailuresIn(s, acts, bound) == DllHost.LOAD_ATTEMPTS
    ensures CountsFailures(Run(s, acts, bound), FailuresIn(s, acts, bound))
  {
    if acts != [] {
      hide Step, Counted;
      var before := acts[..|acts| - 1];
      PanicsIffFortyFail(s, before, bound);
      StepCountsFailures(Run(s, before, bound), acts[|acts| - 1], bound, FailuresIn(s, before, bound));
    }
  }

  // ---- The retries, one call at a time ---------------------------------------------------------------------------

  /** The call main makes now comes out as its attempt says; the image that opens is the file as it was copied. */
  ghost predicate ComesOut(s: Host, ok: bool, attempts: seq<DllHost.Attempt>) {
    && s.attempts < |attempts|
    && var a := attempts[s.attempts];
       match s.main
       case Stat => a.modified == if s.present && ok then Some(s.mtime) else None
       case Copy(_) => a.copied == (s.present && ok) && (DllHost.Loads(a) ==> a.handle.value.id == s.content)
       case Open(_, _) => DllHost.Loads(a) == ok
       case _ => false
  }

  /** In this run main makes calls of its retry loop only, which come out as the attempts say; the rest is anything. */
  ghost predicate Retries(s: Host, acts: seq<Action>, attempts: seq<DllHost.Attempt>, bound: nat) {
    acts != [] ==>
      var before, a := acts[..|acts| - 1], acts[|acts| - 1];
      Retries(s, before, attempts, bound) && (a.Main? ==> ComesOut(Run(s, before, bound), a.ok, attempts))
  }

  /** Where main is in its retry loop, `moves` calls into it. */
  ghost predicate Trying(s: Host, attempts: seq<DllHost.Attempt>, moves: nat) {
    && s.attempts < DllHost.LOAD_ATTEMPTS <= |attempts|
    && (forall i | 0 <= i < s.attempts :: !DllHost.Loads(attempts[i]))
    && var a := attempts[s.attempts];
       match s.main
       case Stat => moves <= 3 * s.attempts
       case Copy(modified) => a.modified == Some(modified) && moves <= 3 * s.attempts + 1
       case Open(modified, copied) =>
         && a.modified == Some(modified) && (DllHost.Loads(a) ==> a.handle.value.id == copied)
         && moves <= 3 * s.attempts + 2
       case _ => false
  }

  /** The attempt that ended the loop is the first that loads, and its image and time are in. */
  ghost predicate LoadedFirst(s: Host, attempts: seq<DllHost.Attempt>) {
    && s.main.ClearRequest? && DllHost.FirstLoad(attempts, s.attempts)
    && s.lastModified == attempts[s.attempts].modified.value
    && s.image == Some(attempts[s.attempts].handle.value.id)
  }

  /** None of the attempts permitted loads, and main has made them all. */
  ghost predicate GaveUp(s: Host, attempts: seq<DllHost.Attempt>) {
    s.main.Panicked? && s.attempts == DllHost.LOAD_ATTEMPTS && forall k: nat :: !DllHost.FirstLoad(attempts, k)
  }

  predicate SameLoad(s: Host, s': Host) {
    s'.lastModified == s.lastModified && s'.image == s.image
  }

  lemma StepRetries(s: Host, a: Action, attempts: seq<DllHost.Attempt>, moves: nat, bound: nat)
    requires Trying(s, attempts, moves) && (a.Main? ==> ComesOut(s, a.ok, attempts))
    ensures var s' := Step(s, a, bound);
      || LoadedFirst(s', attempts)
      || (GaveUp(s', attempts) && SameLoad(s, s'))
      || (Trying(s', attempts, moves + if a.Main? then 1 else 0) && SameLoad(s, s'))
  {
  }

  /** Nothing but main's own moves changes what it has done and where it is. */
  lemma OthersLeaveMain(s: Host, a: Action, bound: nat)
    requires !a.Main?
    ensures var s' := Step(s, a, bound);
      s'.main == s.main && s'.attempts == s.attempts && SameLoad(s, s')
  {
  }

  /**
   * Main's own steps and the loader's retry loop agree, with the file written or removed between any two calls: main
   * gets its image and time from the first attempt that loads, panics with what was loaded last still recorded when
   * none of those permitted does, and has done the one or the other after three calls an attempt.
   */
  lemma {:induction false} RetriesAgree(s: Host, acts: seq<Action>, attempts: seq<DllHost.Attempt>, bound: nat)
    requires s.main == Stat && s.attempts == 0 && |attempts| >= DllHost.LOAD_ATTEMPTS
    requires Retries(s, acts, attempts, bound)
    ensures var s' := Run(s, acts, bound);
      || LoadedFirst(s', attempts)
      || (GaveUp(s', attempts) && SameLoad(s, s'))
      || (Trying(s', attempts, MainMoves(acts)) && SameLoad(s, s'))
    ensures MainMoves(acts) >= 3 * DllHost.LOAD_ATTEMPTS ==> !Trying(Run(s, acts, bound), attempts, MainMoves(acts))
  {
    if acts != [] {
      var before, a := acts[..|acts| - 1], acts[|acts| - 1];
      RetriesAgree(s, before, attempts, bound);
      var last := Run(s, before, bound);
      if Trying(last, attempts, MainMoves(before)) {
        hide Step;
        StepRetries(last, a, attempts, MainMoves(before), bound);
      } else {
        OthersLeaveMain(last, a, bound);
      }
    }
  }
}
