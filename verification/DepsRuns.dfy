/** How the runs of ci/deps.py end: why a fetch fails, that it succeeds otherwise, and that every process comes to an end. */
module DepsRuns {
  import opened Options
  import opened Deps

  // ------------------------------------------------------------------ what a fetch has heard

  /** The sources asked so far are the first of the asset's, in order; `urls` are the rest. */
  ghost predicate Tried(asset: Asset, asked: seq<(string, Answer)>, urls: seq<string>) {
    && |asked| + |urls| == |SourcesOf(asset)| && urls == SourcesOf(asset)[|asked|..]
    && forall k :: 0 <= k < |asked| ==> asked[k].0 == SourcesOf(asset)[k]
  }

  ghost predicate Refused(asked: seq<(string, Answer)>, n: int) {
    forall k :: 0 <= k < n && k < |asked| ==> asked[k].1 == Refusal
  }

  /** Only the last source asked has answered. */
  ghost predicate Answered(asset: Asset, asked: seq<(string, Answer)>) {
    && 0 < |asked| <= |SourcesOf(asset)| && Tried(asset, asked, SourcesOf(asset)[|asked|..])
    && Refused(asked, |asked| - 1) && asked[|asked| - 1].1.Content?
  }

  ghost predicate AnsweredWith(asset: Asset, asked: seq<(string, Answer)>, bytes: Bytes) {
    Answered(asset, asked) && asked[|asked| - 1].1 == Content(bytes)
  }

  /** With the bytes of the pin. */
  ghost predicate Won(cfg: Config, asset: Asset, asked: seq<(string, Answer)>) {
    Answered(asset, asked) && cfg.hash(asked[|asked| - 1].1.bytes) == asset.sha256
  }

  /** Why a fetch fails: a candidate could not be made or renamed, a source gave other bytes, or every source refused. */
  ghost predicate Lost(cfg: Config, asset: Asset, me: Proc) {
    || CreateFile in me.failed
    || RenameFile in me.failed
    || (Answered(asset, me.asked) && cfg.hash(me.asked[|me.asked| - 1].1.bytes) != asset.sha256)
    || (Tried(asset, me.asked, []) && Refused(me.asked, |me.asked|))
  }

  /** No more than a copy has failed. */
  ghost predicate Unbroken(me: Proc) {
    CreateFile !in me.failed && RenameFile !in me.failed
  }

  /** What was downloaded is in the store too, unless that copy failed. */
  ghost predicate Published(cfg: Config, fs: map<Path, Bytes>, asset: Asset, me: Proc) {
    me.asked != [] && SharedPath(cfg, asset).Some? && CopyFile !in me.failed ==> Good(cfg, fs, SharedPath(cfg, asset).value)
  }

  ghost predicate Fetching(me: Proc, asset: Asset, target: string) {
    me.doing == Some(Fetch(asset, target))
  }

  ghost predicate Quiet(me: Proc) {
    me.asked == [] && Unbroken(me)
  }

  ghost predicate Holds(fs: map<Path, Bytes>, cand: nat) {
    Candidate(cand) in fs
  }

  /** The memory of a process in the middle of a copy. */
  ghost predicate CopyStory(cfg: Config, me: Proc, dest: string, caller: Caller) {
    match caller
    case FromStore(asset, target) => Fetching(me, asset, target) && Quiet(me)
    case IntoStore(asset, target, outer) => Fetching(me, asset, target) && Won(cfg, asset, me.asked) && Unbroken(me) && SharedPath(cfg, asset) == Some(dest)
    case Staging => me.doing.Some? && me.doing.value.Place? && me.doing.value.target == dest
  }

  /** The copy succeeded, or it is remembered that it did not. */
  ghost predicate CopyEnd(me: Proc, ok: bool) {
    !ok ==> CopyFile in me.failed
  }

  /** A piece of work that is behind the process went well. */
  ghost predicate Past(cfg: Config, fs: map<Path, Bytes>, me: Proc) {
    me.doing.Some? && me.doing.value.Fetch? ==> Fetched(cfg, fs, me.doing.value.asset, me)
  }

  /** Nothing was asked, or the pinned bytes came and were published. */
  ghost predicate Fetched(cfg: Config, fs: map<Path, Bytes>, asset: Asset, me: Proc) {
    (me.asked == [] || Won(cfg, asset, me.asked)) && Unbroken(me) && Published(cfg, fs, asset, me)
  }

  /** A process that failed has a reason. */
  ghost predicate Failed(cfg: Config, me: Proc) {
    me.doing.Some? &&
    match me.doing.value
    case Fetch(asset, target) => Lost(cfg, asset, me)
    case Place(_, _, _) => CopyFile in me.failed
    case CheckAll(_) => false
  }

  /** What the memory of a process says, at each program point. */
  ghost predicate Story(cfg: Config, fs: map<Path, Bytes>, me: Proc) {
    match me.pc
    case Ready => Past(cfg, fs, me)
    case Checking(items) => me.doing.Some? && me.doing.value.CheckAll?
    case Placing(source, asset, target) => me.doing == Some(Place(source, asset, target))
    case Looking(asset, target) => Fetching(me, asset, target) && Quiet(me)
    case Sharing(asset, target) => Fetching(me, asset, target) && Quiet(me)
    case Rechecking(asset, target) => Fetching(me, asset, target) && Quiet(me)
    case FetchMake(asset, target) => Fetching(me, asset, target) && Quiet(me)
    case FetchCurl(asset, target, cand, urls) =>
      Fetching(me, asset, target) && Unbroken(me) && Tried(asset, me.asked, urls) && Refused(me.asked, |me.asked|)
    case FetchDigest(asset, target, cand, urls) =>
      Fetching(me, asset, target) && Unbroken(me) && Holds(fs, cand) && AnsweredWith(asset, me.asked, fs[Candidate(cand)])
    case FetchRename(asset, target, cand) =>
      Fetching(me, asset, target) && Unbroken(me) && Holds(fs, cand) && Won(cfg, asset, me.asked)
    case FetchUnlink(asset, target, cand, ok) =>
      Fetching(me, asset, target) && if ok then Fetched(cfg, fs, asset, me) else Lost(cfg, asset, me)
    case FetchReturn(asset, target) =>
      Fetching(me, asset, target) && Fetched(cfg, fs, asset, me)
    case CopyMake(source, dest, caller) => CopyStory(cfg, me, dest, caller)
    case CopyOpen(source, dest, cand, caller) => CopyStory(cfg, me, dest, caller)
    case CopyWrite(dest, cand, data, caller) => CopyStory(cfg, me, dest, caller)
    case CopyRename(dest, cand, caller) => CopyStory(cfg, me, dest, caller) && Holds(fs, cand)
    case CopyUnlink(dest, cand, caller, ok) => CopyStory(cfg, me, dest, caller) && CopyEnd(me, ok)
    case Stopped(ok) => if ok then Past(cfg, fs, me) else Failed(cfg, me)
  }

  // ------------------------------------------------------------------ one step keeps it

  function After(cfg: Config, fs: map<Path, Bytes>, made: map<nat, nat>, me: Proc, p: nat, ch: Choice): Proc {
    var e := Act(cfg, fs, made, me, p, ch);
    Remember(me, ch).(todo := e.todo, pc := e.pc)
  }

  lemma TriedMore(asset: Asset, asked: seq<(string, Answer)>, urls: seq<string>, a: Answer)
    requires Tried(asset, asked, urls) && Refused(asked, |asked|) && urls != []
    ensures var more := asked + [(urls[0], a)];
      Tried(asset, more, urls[1..]) && (a == Refusal ==> Refused(more, |more|)) && (a.Content? ==> AnsweredWith(asset, more, a.bytes))
  {
    hide SourcesOf;
    var more := asked + [(urls[0], a)];
    assert forall k :: 0 <= k < |asked| ==> more[k] == asked[k];
    assert SourcesOf(asset)[|more|..] == urls[1..];
  }

  lemma CurlStory(cfg: Config, fs: map<Path, Bytes>, made: map<nat, nat>, me: Proc, p: nat, ch: Choice)
    requires me.pc.FetchCurl? && Story(cfg, fs, me)
    ensures var e := Act(cfg, fs, made, me, p, ch); Story(cfg, e.fs, After(cfg, fs, made, me, p, ch))
  {
    if me.pc.urls != [] {
      TriedMore(me.pc.asset, me.asked, me.pc.urls, if ch.outcome == Done then Content(ch.bytes) else Refusal);
      assert me.asked + [] == me.asked;
    } else {
      assert me.asked + [] == me.asked;
    }
    hide Tried, Refused, AnsweredWith;
  }

  lemma NothingHeard(me: Proc, ch: Choice)
    requires !me.pc.FetchCurl? && me.pc != Ready
    ensures var r := Remember(me, ch); r.doing == me.doing && r.asked == me.asked && r.failed == me.failed + Broken(me.pc, ch)
  {
    assert me.asked + [] == me.asked;
  }

  lemma DigestStory(cfg: Config, fs: map<Path, Bytes>, made: map<nat, nat>, me: Proc, p: nat, ch: Choice)
    requires (me.pc.FetchDigest? || me.pc.FetchRename?) && Story(cfg, fs, me)
    ensures var e := Act(cfg, fs, made, me, p, ch); Story(cfg, e.fs, After(cfg, fs, made, me, p, ch))
  {
    NothingHeard(me, ch);
    hide Tried, Refused, Remember, SharedPath;
  }

  lemma ReturnStory(cfg: Config, fs: map<Path, Bytes>, made: map<nat, nat>, me: Proc, p: nat, ch: Choice)
    requires (me.pc.FetchUnlink? || me.pc.FetchReturn?) && Story(cfg, fs, me)
    ensures var e := Act(cfg, fs, made, me, p, ch); Story(cfg, e.fs, After(cfg, fs, made, me, p, ch))
  {
    NothingHeard(me, ch);
    hide Answered, Tried, Refused, Remember;
  }

  predicate Seeking(pc: Pc) {
    pc.Looking? || pc.Sharing? || pc.Rechecking? || pc.FetchMake?
  }

  lemma AllLeft(asset: Asset)
    ensures Tried(asset, [], SourcesOf(asset)) && Refused([], 0)
  {
  }

  lemma SeekStory(cfg: Config, fs: map<Path, Bytes>, made: map<nat, nat>, me: Proc, p: nat, ch: Choice)
    requires Seeking(me.pc) && Story(cfg, fs, me)
    ensures var e := Act(cfg, fs, made, me, p, ch); Story(cfg, e.fs, After(cfg, fs, made, me, p, ch))
  {
    NothingHeard(me, ch);
    AllLeft(me.pc.asset);
    hide SharedPath, Matches, Won, SourcesOf, Tried, Refused, Remember, Answered;
  }

  lemma WorkStory(cfg: Config, fs: map<Path, Bytes>, made: map<nat, nat>, me: Proc, p: nat, ch: Choice)
    requires !Copying(me.pc) && !Downloading(me.pc) && !Seeking(me.pc) && Story(cfg, fs, me)
    ensures var e := Act(cfg, fs, made, me, p, ch); Story(cfg, e.fs, After(cfg, fs, made, me, p, ch))
  {
    if me.pc != Ready || me.todo == [] { assert me.asked + [] == me.asked; }
    hide Matches, Won, Lost;
  }

  lemma CopyingStory(cfg: Config, fs: map<Path, Bytes>, made: map<nat, nat>, me: Proc, p: nat, ch: Choice)
    requires Copying(me.pc) && !me.pc.CopyUnlink? && !me.pc.CopyMake? && PcFine(cfg, fs, made, p, me.pc) && Story(cfg, fs, me)
    ensures var e := Act(cfg, fs, made, me, p, ch); Story(cfg, e.fs, After(cfg, fs, made, me, p, ch))
  {
    NothingHeard(me, ch);
    hide Won, CallerFine, OwnsApart, Remember;
  }

  lemma BackStory(cfg: Config, fs: map<Path, Bytes>, me: Proc, dest: string, caller: Caller, ok: bool)
    requires CopyStory(cfg, me, dest, caller) && CopyEnd(me, ok) && me.pc == BackTo(caller, ok)
    requires ok ==> Good(cfg, fs, dest)
    ensures Story(cfg, fs, me)
  {
    hide Won, Lost;
  }

  lemma CopyEndsStory(cfg: Config, fs: map<Path, Bytes>, made: map<nat, nat>, me: Proc, p: nat, ch: Choice)
    requires (me.pc.CopyUnlink? || me.pc.CopyMake?) && PcFine(cfg, fs, made, p, me.pc) && Story(cfg, fs, me)
    ensures var e := Act(cfg, fs, made, me, p, ch); Story(cfg, e.fs, After(cfg, fs, made, me, p, ch))
  {
    NothingHeard(me, ch);
    CopyKeeps(cfg, fs, made, me, p, ch);
    var e, now := Act(cfg, fs, made, me, p, ch), After(cfg, fs, made, me, p, ch);
    hide Won, Remember, BackTo, Good, CallerFine, OwnsApart, SharedPath;
    assert CopyStory(cfg, now, me.pc.dest, me.pc.caller);
    if me.pc.CopyUnlink? {
      BackStory(cfg, e.fs, now, me.pc.dest, me.pc.caller, me.pc.ok);
    } else if ch.outcome != Done {
      BackStory(cfg, e.fs, now, me.pc.dest, me.pc.caller, false);
    }
  }

  lemma OwnStory(cfg: Config, fs: map<Path, Bytes>, made: map<nat, nat>, me: Proc, p: nat, ch: Choice)
    requires PcFine(cfg, fs, made, p, me.pc) && Story(cfg, fs, me)
    ensures var e := Act(cfg, fs, made, me, p, ch); Story(cfg, e.fs, After(cfg, fs, made, me, p, ch))
  {
    hide PcFine, Story, Act, After;
    if me.pc.CopyUnlink? || me.pc.CopyMake? {
      CopyEndsStory(cfg, fs, made, me, p, ch);
    } else if Copying(me.pc) {
      CopyingStory(cfg, fs, made, me, p, ch);
    } else if me.pc.FetchCurl? {
      CurlStory(cfg, fs, made, me, p, ch);
    } else if me.pc.FetchDigest? || me.pc.FetchRename? {
      DigestStory(cfg, fs, made, me, p, ch);
    } else if me.pc.FetchUnlink? || me.pc.FetchReturn? {
      ReturnStory(cfg, fs, made, me, p, ch);
    } else if Seeking(me.pc) {
      SeekStory(cfg, fs, made, me, p, ch);
    } else {
      WorkStory(cfg, fs, made, me, p, ch);
    }
  }

  /** A step of another process leaves the candidate in hand alone. */
  lemma OtherStory(cfg: Config, fs: map<Path, Bytes>, made: map<nat, nat>, fs': map<Path, Bytes>, made': map<nat, nat>, p: nat, q: nat, me: Proc)
    requires Keeps(cfg, fs, made, fs', made', p) && q != p && PcFine(cfg, fs, made, q, me.pc) && Story(cfg, fs, me)
    ensures Story(cfg, fs', me)
  {
    hide Good, Pinned, Tried, Refused, CallerFine, CopyStory;
  }

  ghost predicate Stories(cfg: Config, w: World) {
    forall p :: p in w.procs ==> Story(cfg, w.fs, w.procs[p])
  }

  lemma StepStories(cfg: Config, w: World, p: nat, ch: Choice)
    requires Inv(cfg, w) && Stories(cfg, w) && p in w.procs
    ensures Stories(cfg, Next(cfg, w, p, ch))
  {
    hide PcFine, ProcFine, Act, Story, Remember, CandidatesHeld, LogsFine;
    var w', me := Next(cfg, w, p, ch), w.procs[p];
    ProcPc(cfg, w, p);
    ActKeeps(cfg, w.fs, w.made, me, p, ch);
    forall q | q in w'.procs ensures Story(cfg, w'.fs, w'.procs[q]) {
      ProcPc(cfg, w, q);
      if q == p {
        OwnStory(cfg, w.fs, w.made, me, p, ch);
      } else {
        OtherStory(cfg, w.fs, w.made, w'.fs, w'.made, p, q, w.procs[q]);
      }
    }
  }

  lemma StartStories(cfg: Config, w: World)
    requires Start(cfg, w)
    ensures Stories(cfg, w)
  {
  }

  /** What the memory of a process says is true at every moment of every run. */
  lemma {:induction false} RunStories(cfg: Config, ws: seq<World>, i: nat)
    requires Run(cfg, ws) && i < |ws|
    ensures Stories(cfg, ws[i])
    decreases i
  {
    hide Inv, Start, Next, Stories;
    if i == 0 {
      StartStories(cfg, ws[0]);
    } else {
      RunStories(cfg, ws, i - 1);
      RunInv(cfg, ws, i - 1);
      assert StepsTo(cfg, ws[i - 1], ws[(i - 1) + 1]);
      var p, ch :| p in ws[i - 1].procs && ws[i] == Next(cfg, ws[i - 1], p, ch);
      StepStories(cfg, ws[i - 1], p, ch);
    }
  }

  // ------------------------------------------------------------------ how a fetch ends

  /** A fetch that is behind a process has been returned. */
  ghost predicate Told(w: World) {
    forall p :: p in w.procs && w.procs[p].doing.Some? && w.procs[p].doing.value.Fetch? && w.procs[p].pc in {Ready, Stopped(true)}
      ==> (w.procs[p].doing.value.asset, w.procs[p].doing.value.target) in w.returned
  }

  /** A step that ends a fetch, or stays behind it. */
  ghost predicate Tells(me: Proc, e: Effect, now: Proc) {
    now.doing.Some? && now.doing.value.Fetch? && now.pc in {Ready, Stopped(true)} ==>
      || e.event == Returns(now.doing.value.asset, now.doing.value.target)
      || (me.doing == now.doing && me.pc in {Ready, Stopped(true)})
  }

  lemma CopyTells(cfg: Config, fs: map<Path, Bytes>, made: map<nat, nat>, me: Proc, p: nat, ch: Choice)
    requires Copying(me.pc) && Story(cfg, fs, me)
    ensures Tells(me, Act(cfg, fs, made, me, p, ch), After(cfg, fs, made, me, p, ch))
  {
    NothingHeard(me, ch);
    hide Remember, Won, Unbroken, Quiet;
  }

  lemma DownloadTells(cfg: Config, fs: map<Path, Bytes>, made: map<nat, nat>, me: Proc, p: nat, ch: Choice)
    requires Downloading(me.pc) && Story(cfg, fs, me)
    ensures Tells(me, Act(cfg, fs, made, me, p, ch), After(cfg, fs, made, me, p, ch))
  {
    hide Heard, Broken, Won, Lost, Unbroken, Tried, Refused, AnsweredWith, SharedPath;
  }

  lemma WorkTells(cfg: Config, fs: map<Path, Bytes>, made: map<nat, nat>, me: Proc, p: nat, ch: Choice)
    requires !Copying(me.pc) && !Downloading(me.pc) && Story(cfg, fs, me)
    ensures Tells(me, Act(cfg, fs, made, me, p, ch), After(cfg, fs, made, me, p, ch))
  {
    hide Heard, Broken, Won, Lost, Unbroken, SharedPath, SourcesOf, Matches;
  }

  lemma OwnTold(cfg: Config, fs: map<Path, Bytes>, made: map<nat, nat>, me: Proc, p: nat, ch: Choice)
    requires Story(cfg, fs, me)
    ensures Tells(me, Act(cfg, fs, made, me, p, ch), After(cfg, fs, made, me, p, ch))
  {
    hide Tells, Act, After, Story;
    if Copying(me.pc) {
      CopyTells(cfg, fs, made, me, p, ch);
    } else if Downloading(me.pc) {
      DownloadTells(cfg, fs, made, me, p, ch);
    } else {
      WorkTells(cfg, fs, made, me, p, ch);
    }
  }

  lemma StepTold(cfg: Config, w: World, p: nat, ch: Choice)
    requires Stories(cfg, w) && Told(w) && p in w.procs
    ensures Told(Next(cfg, w, p, ch))
  {
    hide Act, Story, Remember;
    var w', me := Next(cfg, w, p, ch), w.procs[p];
    var now := After(cfg, w.fs, w.made, me, p, ch);
    assert w'.procs[p] == now;
    OwnTold(cfg, w.fs, w.made, me, p, ch);
  }

  lemma StartTold(cfg: Config, w: World)
    requires Start(cfg, w)
    ensures Told(w)
  {
  }

  lemma {:induction false} RunTold(cfg: Config, ws: seq<World>, i: nat)
    requires Run(cfg, ws) && i < |ws|
    ensures Told(ws[i])
    decreases i
  {
    hide Stories, Start, Next, Told;
    if i == 0 {
      StartTold(cfg, ws[0]);
    } else {
      RunTold(cfg, ws, i - 1);
      RunStories(cfg, ws, i - 1);
      assert StepsTo(cfg, ws[i - 1], ws[(i - 1) + 1]);
      var p, ch :| p in ws[i - 1].procs && ws[i] == Next(cfg, ws[i - 1], p, ch);
      StepTold(cfg, ws[i - 1], p, ch);
    }
  }

  /** The one piece of work of such a process is ahead of it or in hand. */
  ghost predicate OnlyFetch(me: Proc, asset: Asset, target: string) {
    me == FetchJob(asset, target) || (me.todo == [] && Fetching(me, asset, target) && !me.pc.Checking?)
  }

  lemma OnlyStep(cfg: Config, w: World, p: nat, q: nat, ch: Choice, asset: Asset, target: string)
    requires Inv(cfg, w) && p in w.procs && q in w.procs && OnlyFetch(w.procs[p], asset, target)
    ensures OnlyFetch(Next(cfg, w, q, ch).procs[p], asset, target)
  {
    ProcPc(cfg, w, p);
    if q == p && w.procs[p].pc != Ready {
      WithinAim(cfg, w.fs, w.made, w.procs[p], p, ch);
      hide Act, Heard, Broken, PcFine;
    }
  }

  lemma {:induction false} OnlyRun(cfg: Config, ws: seq<World>, i: nat, p: nat, asset: Asset, target: string)
    requires Run(cfg, ws) && i < |ws| && p in ws[0].procs && ws[0].procs[p] == FetchJob(asset, target)
    ensures p in ws[i].procs && OnlyFetch(ws[i].procs[p], asset, target)
    decreases i
  {
    hide Inv, Start, OnlyFetch, Act;
    if i == 0 {
      OnlyAtStart(asset, target);
    } else {
      OnlyRun(cfg, ws, i - 1, p, asset, target);
      RunInv(cfg, ws, i - 1);
      assert StepsTo(cfg, ws[i - 1], ws[(i - 1) + 1]);
      var q, ch :| q in ws[i - 1].procs && ws[i] == Next(cfg, ws[i - 1], q, ch);
      OnlyStep(cfg, ws[i - 1], p, q, ch, asset, target);
    }
  }

  lemma OnlyAtStart(asset: Asset, target: string)
    ensures OnlyFetch(FetchJob(asset, target), asset, target)
  {
  }

  lemma WonNotLost(cfg: Config, fs: map<Path, Bytes>, asset: Asset, me: Proc)
    requires Past(cfg, fs, me) && me.doing.Some? && me.doing.value.Fetch? && me.doing.value.asset == asset
    ensures !Lost(cfg, asset, me)
  {
  }

  /** A fetch that has ended failed exactly for one of these reasons; else it has returned the asset's path, and what
      it downloaded is in the store too, unless that copy failed. */
  lemma FetchEnds(cfg: Config, ws: seq<World>, i: nat, p: nat, asset: Asset, target: string)
    requires Run(cfg, ws) && i < |ws| && p in ws[0].procs && ws[0].procs[p] == FetchJob(asset, target)
    requires p in ws[i].procs && ws[i].procs[p].pc.Stopped?
    ensures ws[i].procs[p].pc == Stopped(false) <==> Lost(cfg, asset, ws[i].procs[p])
    ensures ws[i].procs[p].pc == Stopped(true) ==>
      (asset, target) in ws[i].returned && Published(cfg, ws[i].fs, asset, ws[i].procs[p])
  {
    RunStories(cfg, ws, i);
    RunTold(cfg, ws, i);
    OnlyRun(cfg, ws, i, p, asset, target);
    var me := ws[i].procs[p];
    assert Story(cfg, ws[i].fs, me);
    hide Lost, Run, Published, Unbroken, Won;
    if me.pc.ok { WonNotLost(cfg, ws[i].fs, asset, me); }
  }

  /** So when some sources refuse and the next one gives the pinned bytes, and a candidate can be made and renamed, the
      fetch returns the asset's path. */
  lemma FetchSucceeds(cfg: Config, ws: seq<World>, i: nat, p: nat, asset: Asset, target: string, k: nat, bytes: Bytes)
    requires Run(cfg, ws) && i < |ws| && p in ws[0].procs && ws[0].procs[p] == FetchJob(asset, target)
    requires p in ws[i].procs && ws[i].procs[p].pc.Stopped? && Unbroken(ws[i].procs[p])
    requires k < |ws[i].procs[p].asked| && ws[i].procs[p].asked[k].1 == Content(bytes) && cfg.hash(bytes) == asset.sha256
    ensures ws[i].procs[p].pc == Stopped(true) && (asset, target) in ws[i].returned
    ensures k + 1 == |ws[i].procs[p].asked|
  {
    FetchEnds(cfg, ws, i, p, asset, target);
    RunStories(cfg, ws, i);
    OnlyRun(cfg, ws, i, p, asset, target);
    assert Story(cfg, ws[i].fs, ws[i].procs[p]);
    hide Run;
  }

  lemma LastHeard(asset: Asset, asked: seq<(string, Answer)>)
    ensures Answered(asset, asked) ==> asked != [] && asked[|asked| - 1] in asked && asked[|asked| - 1].1.Content?
  {
  }

  /** Without a failing operation and without an answer of other bytes, a fetch fails only after the URL and every mirror
      have been asked in order and have refused. */
  lemma AllSourcesTried(cfg: Config, ws: seq<World>, i: nat, p: nat, asset: Asset, target: string)
    requires Run(cfg, ws) && i < |ws| && p in ws[0].procs && ws[0].procs[p] == FetchJob(asset, target)
    requires p in ws[i].procs && ws[i].procs[p].pc == Stopped(false) && Unbroken(ws[i].procs[p])
    requires forall a :: a in ws[i].procs[p].asked && a.1.Content? ==> cfg.hash(a.1.bytes) == asset.sha256
    ensures var asked := ws[i].procs[p].asked;
      |asked| == 1 + |asset.mirrors| && asked[0] == (asset.url, Refusal)
      && forall k :: 0 <= k < |asset.mirrors| ==> asked[k + 1] == (asset.mirrors[k], Refusal)
  {
    FetchEnds(cfg, ws, i, p, asset, target);
    hide Run;
    var asked := ws[i].procs[p].asked;
    LastHeard(asset, asked);
    assert Tried(asset, asked, []) && Refused(asked, |asked|);
    forall k | 0 <= k < |asset.mirrors| ensures asked[k + 1] == (asset.mirrors[k], Refusal) {
      assert SourcesOf(asset)[k + 1] == asset.mirrors[k];
    }
  }

  /** Any process that has failed has such a reason, or a copy of `stage` that failed. */
  lemma FailsForReason(cfg: Config, ws: seq<World>, i: nat, p: nat)
    requires Run(cfg, ws) && i < |ws| && p in ws[i].procs && ws[i].procs[p].pc == Stopped(false)
    ensures Failed(cfg, ws[i].procs[p])
  {
    RunStories(cfg, ws, i);
    hide Run, Failed;
    assert Story(cfg, ws[i].fs, ws[i].procs[p]);
  }

  // ------------------------------------------------------------------ what is there already is not fetched

  /** The fetch has not got past the store, is being served from there, or is over. */
  predicate BeforeDownload(pc: Pc) {
    match pc
    case Looking(_, _) => true
    case Sharing(_, _) => true
    case Rechecking(_, _) => true
    case FetchReturn(_, _) => true
    case CopyMake(_, _, caller) => caller.FromStore?
    case CopyOpen(_, _, _, caller) => caller.FromStore?
    case CopyWrite(_, _, _, caller) => caller.FromStore?
    case CopyRename(_, _, caller) => caller.FromStore?
    case CopyUnlink(_, _, caller, _) => caller.FromStore?
    case Ready => true
    case Stopped(ok) => ok
    case _ => false
  }

  /** Nothing has been asked, and once the copy has been made the target is good. */
  ghost predicate Served(cfg: Config, fs: map<Path, Bytes>, me: Proc, asset: Asset, target: string) {
    || (me.todo == [] && CopyFile in me.failed)
    || me == FetchJob(asset, target)
    || (me.todo == [] && Fetching(me, asset, target) && me.asked == [] && me.failed == {} && BeforeDownload(me.pc)
        && (me.pc.Rechecking? ==> Good(cfg, fs, target)))
  }

  lemma ServedLooks(cfg: Config, fs: map<Path, Bytes>, made: map<nat, nat>, me: Proc, p: nat, ch: Choice, asset: Asset, target: string)
    requires PcFine(cfg, fs, made, p, me.pc) && Story(cfg, fs, me) && Served(cfg, fs, me, asset, target) && !Copying(me.pc)
    requires Pinned(cfg, asset, target) && SharedPath(cfg, asset).Some? && Good(cfg, fs, SharedPath(cfg, asset).value)
    requires CopyFile !in me.failed
    ensures var e := Act(cfg, fs, made, me, p, ch); Served(cfg, e.fs, After(cfg, fs, made, me, p, ch), asset, target)
  {
    assert me.asked + [] == me.asked;
    hide SharedPath, SourcesOf, Won, Lost;
  }

  lemma ServedCopies(cfg: Config, fs: map<Path, Bytes>, made: map<nat, nat>, me: Proc, p: nat, ch: Choice, asset: Asset, target: string)
    requires PcFine(cfg, fs, made, p, me.pc) && Story(cfg, fs, me) && Served(cfg, fs, me, asset, target) && Copying(me.pc)
    requires CopyFile !in me.failed
    ensures var e := Act(cfg, fs, made, me, p, ch); Served(cfg, e.fs, After(cfg, fs, made, me, p, ch), asset, target)
  {
    NothingHeard(me, ch);
    CopyKeeps(cfg, fs, made, me, p, ch);
    hide Good, Pinned, Won, Lost, Remember, SourcesOf, SharedPath;
  }

  lemma ServedStep(cfg: Config, w: World, p: nat, q: nat, ch: Choice, asset: Asset, target: string, shared: string)
    requires Inv(cfg, w) && Stories(cfg, w) && p in w.procs && q in w.procs
    requires Served(cfg, w.fs, w.procs[p], asset, target) && Pinned(cfg, asset, target)
    requires SharedPath(cfg, asset) == Some(shared) && Good(cfg, w.fs, shared)
    ensures var w' := Next(cfg, w, q, ch); Served(cfg, w'.fs, w'.procs[p], asset, target) && Good(cfg, w'.fs, shared)
  {
    hide PcFine, ProcFine, Act, Story, Pinned, Good, BeforeDownload, SharedPath, Heard, Broken;
    var me := w.procs[p];
    ProcPc(cfg, w, p);
    ProcPc(cfg, w, q);
    ActKeeps(cfg, w.fs, w.made, w.procs[q], q, ch);
    assert Story(cfg, w.fs, me);
    if q == p && CopyFile !in me.failed {
      if Copying(me.pc) {
        ServedCopies(cfg, w.fs, w.made, me, p, ch, asset, target);
      } else {
        ServedLooks(cfg, w.fs, w.made, me, p, ch, asset, target);
      }
    } else if q == p {
      FailedStays(cfg, w.fs, w.made, me, p, ch);
    }
  }

  lemma FailedStays(cfg: Config, fs: map<Path, Bytes>, made: map<nat, nat>, me: Proc, p: nat, ch: Choice)
    requires me.todo == [] && CopyFile in me.failed
    ensures var now := After(cfg, fs, made, me, p, ch); now.todo == [] && CopyFile in now.failed
  {
    hide Matches, SharedPath, SourcesOf, Heard, Broken, BackTo;
  }

  lemma {:induction false} ServedRun(cfg: Config, ws: seq<World>, i: nat, j: nat, p: nat, asset: Asset, target: string, shared: string)
    requires Run(cfg, ws) && i <= j < |ws| && p in ws[i].procs
    requires Served(cfg, ws[i].fs, ws[i].procs[p], asset, target) && Pinned(cfg, asset, target)
    requires SharedPath(cfg, asset) == Some(shared) && Good(cfg, ws[i].fs, shared)
    ensures p in ws[j].procs && Served(cfg, ws[j].fs, ws[j].procs[p], asset, target) && Good(cfg, ws[j].fs, shared)
    decreases j
  {
    hide Inv, Stories, Start, Act, Served, Pinned, Good, SharedPath;
    if i < j {
      ServedRun(cfg, ws, i, j - 1, p, asset, target, shared);
      RunInv(cfg, ws, j - 1);
      RunStories(cfg, ws, j - 1);
      assert StepsTo(cfg, ws[j - 1], ws[(j - 1) + 1]);
      var q, ch :| q in ws[j - 1].procs && ws[j] == Next(cfg, ws[j - 1], q, ch);
      ServedStep(cfg, ws[j - 1], p, q, ch, asset, target, shared);
    }
  }

  /** When the store holds the asset before a fetch begins, and the copy from there works, no source is asked and the
      fetch does not fail. */
  lemma StoreServes(cfg: Config, ws: seq<World>, i: nat, j: nat, p: nat, asset: Asset, target: string, shared: string)
    requires Run(cfg, ws) && i <= j < |ws| && p in ws[i].procs && ws[i].procs[p] == FetchJob(asset, target) && Pinned(cfg, asset, target)
    requires SharedPath(cfg, asset) == Some(shared) && Good(cfg, ws[i].fs, shared)
    ensures p in ws[j].procs
    ensures CopyFile !in ws[j].procs[p].failed ==> ws[j].procs[p].asked == [] && ws[j].procs[p].pc != Stopped(false)
  {
    ServedRun(cfg, ws, i, j, p, asset, target, shared);
    hide Run, Pinned, Good;
  }

  /** The target was there: the fetch only looks and returns. */
  ghost predicate Found(me: Proc, asset: Asset, target: string) {
    || me == FetchJob(asset, target)
    || (me.todo == [] && Fetching(me, asset, target) && me.asked == [] && me.failed == {}
        && (me.pc == Looking(asset, target) || me.pc == FetchReturn(asset, target) || me.pc == Ready || me.pc == Stopped(true)))
  }

  lemma FoundStep(cfg: Config, w: World, p: nat, q: nat, ch: Choice, asset: Asset, target: string)
    requires Inv(cfg, w) && p in w.procs && q in w.procs && Found(w.procs[p], asset, target)
    requires Pinned(cfg, asset, target) && Good(cfg, w.fs, target)
    ensures var w' := Next(cfg, w, q, ch); Found(w'.procs[p], asset, target) && Good(cfg, w'.fs, target)
  {
    hide PcFine, ProcFine, SharedPath;
    ProcPc(cfg, w, q);
    ActKeeps(cfg, w.fs, w.made, w.procs[q], q, ch);
    if q == p {
      assert w.procs[p].asked + [] == w.procs[p].asked;
    } else {
      hide Act;
    }
  }

  /** When the target holds the asset before a fetch begins, nothing is fetched, made or copied. */
  lemma {:induction false} TargetServes(cfg: Config, ws: seq<World>, i: nat, j: nat, p: nat, asset: Asset, target: string)
    requires Run(cfg, ws) && i <= j < |ws| && p in ws[i].procs && Found(ws[i].procs[p], asset, target)
    requires Pinned(cfg, asset, target) && Good(cfg, ws[i].fs, target)
    ensures p in ws[j].procs && Found(ws[j].procs[p], asset, target) && Good(cfg, ws[j].fs, target)
    decreases j
  {
    hide Inv, Start, Act, Found, Pinned, Good;
    if i < j {
      TargetServes(cfg, ws, i, j - 1, p, asset, target);
      RunInv(cfg, ws, j - 1);
      assert StepsTo(cfg, ws[j - 1], ws[(j - 1) + 1]);
      var q, ch :| q in ws[j - 1].procs && ws[j] == Next(cfg, ws[j - 1], q, ch);
      FoundStep(cfg, ws[j - 1], p, q, ch, asset, target);
    }
  }

  /** Everything to stage was there: the process only checks. */
  ghost predicate Rested(me: Proc, items: seq<Item>) {
    || me == StageJob(items)
    || (me.asked == [] && me.failed == {} && me.doing == Some(StageJob(items).todo[0]) && me.todo == StageJob(items).todo[1..]
        && (me.pc == Stopped(true)
            || (me.pc.Checking? && |me.pc.items| <= |items|
                && me.pc.items == StageJob(items).todo[0].items[|items| - |me.pc.items|..])))
  }

  lemma RestedStep(cfg: Config, w: World, p: nat, q: nat, ch: Choice, items: seq<Item>)
    requires Inv(cfg, w) && p in w.procs && q in w.procs && Rested(w.procs[p], items)
    requires forall i :: 0 <= i < |items| ==> Pinned(cfg, items[i].asset, items[i].dest) && Good(cfg, w.fs, items[i].dest)
    ensures var w' := Next(cfg, w, q, ch);
      Rested(w'.procs[p], items) && forall i :: 0 <= i < |items| ==> Good(cfg, w'.fs, items[i].dest)
  {
    hide PcFine, ProcFine, SharedPath;
    ProcPc(cfg, w, q);
    ActKeeps(cfg, w.fs, w.made, w.procs[q], q, ch);
    hide Keeps;
    if q == p {
      var me := w.procs[p];
      assert me.asked + [] == me.asked;
      if me.pc.Checking? && me.pc.items != [] {
        var n := |items| - |me.pc.items|;
        assert me.pc.items[0] == (items[n].asset, items[n].dest);
        assert me.pc.items[1..] == StageJob(items).todo[0].items[n + 1..];
      }
    } else {
      hide Act;
    }
  }

  /** `stage` fetches and copies nothing when every file is in place. */
  lemma {:induction false} StagedAlready(cfg: Config, ws: seq<World>, i: nat, j: nat, p: nat, items: seq<Item>)
    requires Run(cfg, ws) && i <= j < |ws| && p in ws[i].procs && Rested(ws[i].procs[p], items)
    requires forall k :: 0 <= k < |items| ==> Pinned(cfg, items[k].asset, items[k].dest) && Good(cfg, ws[i].fs, items[k].dest)
    ensures p in ws[j].procs && Rested(ws[j].procs[p], items)
    ensures forall k :: 0 <= k < |items| ==> Good(cfg, ws[j].fs, items[k].dest)
    decreases j
  {
    hide Inv, Start, Act, Rested, Pinned, Good;
    if i < j {
      StagedAlready(cfg, ws, i, j - 1, p, items);
      RunInv(cfg, ws, j - 1);
      assert StepsTo(cfg, ws[j - 1], ws[(j - 1) + 1]);
      var q, ch :| q in ws[j - 1].procs && ws[j] == Next(cfg, ws[j - 1], q, ch);
      RestedStep(cfg, ws[j - 1], p, q, ch, items);
    }
  }

  /** A single staged file that is right already is left alone. */
  lemma PlacedLeft(cfg: Config, ws: seq<World>, i: nat, p: nat)
    requires Run(cfg, ws) && i + 1 < |ws| && p in ws[i].procs && ws[i].procs[p].pc.Placing?
    requires Good(cfg, ws[i].fs, ws[i].procs[p].pc.target) && p in ws[i + 1].procs && ws[i + 1].procs[p] != ws[i].procs[p]
    ensures ws[i + 1].procs[p].pc == Ready && ws[i + 1].renamed == ws[i].renamed && ws[i + 1].fs == ws[i].fs
  {
    RunInv(cfg, ws, i);
    ProcPc(cfg, ws[i], p);
    assert StepsTo(cfg, ws[i], ws[i + 1]);
    var q, ch :| q in ws[i].procs && ws[i + 1] == Next(cfg, ws[i], q, ch);
    hide Run, Inv, SharedPath;
    if q != p { hide Act; }
  }

  // ------------------------------------------------------------------ every process comes to an end

  /** What is left to do, at most. */
  function PcRank(pc: Pc): nat {
    match pc
    case Ready => 1
    case Checking(items) => |items| + 2
    case Placing(_, _, _) => 7
    case Looking(asset, _) => |SourcesOf(asset)| + 20
    case Sharing(asset, _) => |SourcesOf(asset)| + 19
    case Rechecking(asset, _) => |SourcesOf(asset)| + 13
    case FetchMake(asset, _) => |SourcesOf(asset)| + 12
    case FetchCurl(_, _, _, urls) => |urls| + 11
    case FetchDigest(_, _, _, _) => 10
    case FetchRename(_, _, _) => 9
    case FetchUnlink(_, _, _, _) => 3
    case FetchReturn(_, _) => 2
    case CopyMake(_, _, caller) => BackRank(caller) + 5
    case CopyOpen(_, _, _, caller) => BackRank(caller) + 4
    case CopyWrite(_, _, _, caller) => BackRank(caller) + 3
    case CopyRename(_, _, caller) => BackRank(caller) + 2
    case CopyUnlink(_, _, caller, _) => BackRank(caller) + 1
    case Stopped(_) => 0
  }

  function BackRank(caller: Caller): nat {
    match caller
    case FromStore(asset, _) => |SourcesOf(asset)| + 13
    case IntoStore(_, _, _) => 3
    case Staging => 1
  }

  function TodoRank(todo: seq<Work>): nat {
    if todo == [] then 0 else PcRank(Begin(todo[0])) + TodoRank(todo[1..])
  }

  function Rank(me: Proc): nat { PcRank(me.pc) + TodoRank(me.todo) }

  /** The effect of a step that stays where it is, or leaves less to do. */
  ghost predicate Descends(me: Proc, e: Effect) {
    (e.pc == me.pc && e.todo == me.todo) || PcRank(e.pc) + TodoRank(e.todo) < PcRank(me.pc) + TodoRank(me.todo)
  }

  lemma BackDown(caller: Caller, ok: bool)
    ensures PcRank(BackTo(caller, ok)) <= BackRank(caller)
  {
    hide SourcesOf;
  }

  lemma CopyEndRank(cfg: Config, fs: map<Path, Bytes>, made: map<nat, nat>, me: Proc, p: nat, ch: Choice)
    requires me.pc.CopyMake? || me.pc.CopyUnlink?
    ensures Descends(me, Act(cfg, fs, made, me, p, ch))
  {
    BackDown(me.pc.caller, if me.pc.CopyUnlink? then me.pc.ok else false);
    hide TodoRank, BackRank, BackTo;
  }

  lemma CopyRank(cfg: Config, fs: map<Path, Bytes>, made: map<nat, nat>, me: Proc, p: nat, ch: Choice)
    requires me.pc.CopyOpen? || me.pc.CopyWrite? || me.pc.CopyRename?
    ensures Descends(me, Act(cfg, fs, made, me, p, ch))
  {
    hide TodoRank, BackRank;
  }

  lemma DownloadRank(cfg: Config, fs: map<Path, Bytes>, made: map<nat, nat>, me: Proc, p: nat, ch: Choice)
    requires Downloading(me.pc)
    ensures Descends(me, Act(cfg, fs, made, me, p, ch))
  {
    hide TodoRank, SourcesOf, SharedPath;
  }

  lemma SeekRank(cfg: Config, fs: map<Path, Bytes>, made: map<nat, nat>, me: Proc, p: nat, ch: Choice)
    requires Seeking(me.pc)
    ensures Descends(me, Act(cfg, fs, made, me, p, ch))
  {
    hide TodoRank, SourcesOf, Matches, SharedPath;
  }

  lemma WorkRank(cfg: Config, fs: map<Path, Bytes>, made: map<nat, nat>, me: Proc, p: nat, ch: Choice)
    requires !Copying(me.pc) && !Downloading(me.pc) && !Seeking(me.pc)
    ensures Descends(me, Act(cfg, fs, made, me, p, ch))
  {
    if me.pc == Ready && me.todo != [] {
      assert TodoRank(me.todo) == PcRank(Begin(me.todo[0])) + TodoRank(me.todo[1..]);
    }
    hide TodoRank, SourcesOf, Matches, Begin;
  }

  lemma ActDescends(cfg: Config, fs: map<Path, Bytes>, made: map<nat, nat>, me: Proc, p: nat, ch: Choice)
    ensures Descends(me, Act(cfg, fs, made, me, p, ch))
  {
    hide Descends, Act;
    if me.pc.CopyMake? || me.pc.CopyUnlink? {
      CopyEndRank(cfg, fs, made, me, p, ch);
    } else if Copying(me.pc) {
      CopyRank(cfg, fs, made, me, p, ch);
    } else if Downloading(me.pc) {
      DownloadRank(cfg, fs, made, me, p, ch);
    } else if Seeking(me.pc) {
      SeekRank(cfg, fs, made, me, p, ch);
    } else {
      WorkRank(cfg, fs, made, me, p, ch);
    }
  }

  /** A process that stays where it is has nothing new to remember. */
  lemma StaysSame(cfg: Config, fs: map<Path, Bytes>, made: map<nat, nat>, me: Proc, p: nat, ch: Choice)
    requires var e := Act(cfg, fs, made, me, p, ch); e.pc == me.pc && e.todo == me.todo
    ensures After(cfg, fs, made, me, p, ch) == me
  {
    assert me.asked + [] == me.asked;
    hide Matches, SharedPath, SourcesOf;
  }

  /** A step either changes nothing of a process, or leaves it less to do. */
  lemma StepRank(cfg: Config, w: World, p: nat, q: nat, ch: Choice)
    requires p in w.procs && q in w.procs
    ensures var w' := Next(cfg, w, q, ch); p in w'.procs && (w'.procs[p] == w.procs[p] || Rank(w'.procs[p]) < Rank(w.procs[p]))
  {
    hide Act, Remember, PcRank, TodoRank;
    if p == q {
      var me, e := w.procs[p], Act(cfg, w.fs, w.made, w.procs[p], p, ch);
      ActDescends(cfg, w.fs, w.made, me, p, ch);
      if e.pc == me.pc && e.todo == me.todo { StaysSame(cfg, w.fs, w.made, me, p, ch); }
    }
  }

  /** How often the process has changed in the first `i` steps. */
  ghost function Turns(ws: seq<World>, p: nat, i: nat): nat
    requires i < |ws|
  {
    if i == 0 then 0
    else Turns(ws, p, i - 1) + (if p in ws[i].procs && p in ws[i - 1].procs && ws[i].procs[p] == ws[i - 1].procs[p] then 0 else 1)
  }

  /** In any run a process changes at most so often as its rank says, however often a write is cut in pieces. */
  lemma {:induction false} TurnsBounded(cfg: Config, ws: seq<World>, p: nat, i: nat)
    requires Run(cfg, ws) && i < |ws| && p in ws[0].procs
    ensures p in ws[i].procs && Turns(ws, p, i) + Rank(ws[i].procs[p]) <= Rank(ws[0].procs[p])
    decreases i
  {
    hide Start, Next, Rank;
    if i > 0 {
      TurnsBounded(cfg, ws, p, i - 1);
      assert StepsTo(cfg, ws[i - 1], ws[(i - 1) + 1]);
      var q, ch :| q in ws[i - 1].procs && ws[i] == Next(cfg, ws[i - 1], q, ch);
      StepRank(cfg, ws[i - 1], p, q, ch);
    }
  }

  lemma FreshName(names: set<nat>) returns (n: nat)
    ensures forall x :: x in names ==> x < n
  {
    if names == {} {
      n := 0;
    } else {
      var x :| x in names;
      var m := FreshName(names - {x});
      n := if m <= x then x + 1 else m;
      assert forall y :: y in names ==> y == x || y in names - {x};
    }
  }

  /** And as long as it has not stopped, there is a step that changes it. */
  lemma NotStuck(cfg: Config, w: World, p: nat) returns (ch: Choice)
    requires p in w.procs && !w.procs[p].pc.Stopped?
    ensures ch.outcome == Done && Next(cfg, w, p, ch).procs[p] != w.procs[p]
  {
    var n := FreshName(w.made.Keys);
    ch := Choice(Done, n, []);
    hide Matches, SharedPath, SourcesOf, BackTo, Remember, Begin;
    MovesOn(cfg, w.fs, w.made, w.procs[p], p, ch);
  }

  lemma MovesOn(cfg: Config, fs: map<Path, Bytes>, made: map<nat, nat>, me: Proc, p: nat, ch: Choice)
    requires !me.pc.Stopped? && ch.outcome == Done && ch.name !in made
    ensures After(cfg, fs, made, me, p, ch).pc != me.pc
  {
    hide Matches, SharedPath, SourcesOf;
  }

  /** From every moment of every run a process can go on to its end, the others standing still. */
  lemma {:induction false} CanEnd(cfg: Config, ws: seq<World>, p: nat) returns (more: seq<World>)
    requires Run(cfg, ws) && p in ws[|ws| - 1].procs
    ensures Run(cfg, ws + more) && p in (ws + more)[|ws + more| - 1].procs && (ws + more)[|ws + more| - 1].procs[p].pc.Stopped?
    decreases Rank(ws[|ws| - 1].procs[p])
  {
    hide Start, Next, Rank;
    var w := ws[|ws| - 1];
    if w.procs[p].pc.Stopped? {
      more := [];
      assert ws + more == ws;
    } else {
      var ch := NotStuck(cfg, w, p);
      StepRank(cfg, w, p, p, ch);
      var next := Next(cfg, w, p, ch);
      assert StepsTo(cfg, w, next);
      var longer := ws + [next];
      assert Run(cfg, longer);
      var rest := CanEnd(cfg, longer, p);
      more := [next] + rest;
      assert ws + more == longer + rest;
    }
  }
}
