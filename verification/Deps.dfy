/** `fetch_asset`, `publish` and `stage` of ci/deps.py, run by any number of processes on one file system. */
module Deps {
  import opened Options

  type Bytes = seq<bv8>
  type Digest = string

  /** A file of the download directory, the shared store or a staging directory, or one `mkstemp` file. */
  datatype Path = Final(name: string) | Candidate(id: nat)

  datatype Asset = Asset(name: string, sha256: Digest, url: string, mirrors: seq<string>)

  /** The canonical URL, then the mirrors. */
  function SourcesOf(asset: Asset): seq<string> {
    [asset.url] + asset.mirrors
  }

  /** `hash` stands for SHA-256, `store` for the machine-wide cache, `pin` for the digest each path is meant to hold. */
  datatype Config = Config(hash: Bytes -> Digest, store: Option<string>, pin: map<string, Digest>)

  function Prefix(s: string, n: nat): string {
    if n <= |s| then s[..n] else s
  }

  /** `shared_path`: the store keeps an asset under the first 16 digits of its digest. */
  function SharedPath(cfg: Config, asset: Asset): Option<string> {
    match cfg.store
    case None => None
    case Some(root) => Some(root + "/" + Prefix(asset.sha256, 16) + "/" + asset.name)
  }

  /** One entry of a process's program. `CheckAll` is the test that lets `stage` return at once. */
  datatype Work =
    | CheckAll(items: seq<(Asset, string)>)
    | Fetch(asset: Asset, target: string)
    | Place(source: string, asset: Asset, target: string)

  /** Where a copy goes back to: `publish` swallows every OSError, `stage` does not. */
  datatype Caller =
    | FromStore(asset: Asset, target: string)
    | IntoStore(asset: Asset, target: string, outer: nat)
    | Staging

  datatype Pc =
    | Ready
    | Checking(items: seq<(Asset, string)>)
    | Placing(source: string, asset: Asset, target: string)
    | Looking(asset: Asset, target: string)
    | Sharing(asset: Asset, target: string)
    | Rechecking(asset: Asset, target: string)
    | FetchMake(asset: Asset, target: string)
    | FetchCurl(asset: Asset, target: string, cand: nat, urls: seq<string>)
    | FetchDigest(asset: Asset, target: string, cand: nat, urls: seq<string>)
    | FetchRename(asset: Asset, target: string, cand: nat)
    | FetchUnlink(asset: Asset, target: string, cand: nat, ok: bool)
    | FetchReturn(asset: Asset, target: string)
    | CopyMake(source: string, dest: string, caller: Caller)
    | CopyOpen(source: string, dest: string, cand: nat, caller: Caller)
    | CopyWrite(dest: string, cand: nat, data: Bytes, caller: Caller)
    | CopyRename(dest: string, cand: nat, caller: Caller)
    | CopyUnlink(dest: string, cand: nat, caller: Caller, ok: bool)
    | Stopped(ok: bool)

  /** What a source gave when it was asked, and the file operations that can fail. */
  datatype Answer = Refusal | Content(bytes: Bytes)
  datatype Op = CreateFile | RenameFile | CopyFile

  /** `goals`: what must be in place when the process ends well. `doing`, `asked` and `failed` remember the work in hand:
      which it is, the sources asked with their answers, and the operations that failed. */
  datatype Proc = Proc(todo: seq<Work>, pc: Pc, goals: set<string>, doing: Option<Work>, asked: seq<(string, Answer)>, failed: set<Op>)

  /** What the environment decides in one step. */
  datatype Outcome = Done | Fails | Partial
  datatype Choice = Choice(outcome: Outcome, name: nat, bytes: Bytes)

  /** `made` says which process created a candidate; the three logs record what has happened. */
  datatype World = World(
    fs: map<Path, Bytes>,
    made: map<nat, nat>,
    procs: map<nat, Proc>,
    renamed: seq<(string, Bytes)>,
    unlinked: seq<(nat, nat)>,
    returned: seq<(Asset, string)>)

  /** `path.is_file() and digest(path) == sha`. */
  predicate Matches(cfg: Config, fs: map<Path, Bytes>, name: string, sha: Digest) {
    Final(name) in fs && cfg.hash(fs[Final(name)]) == sha
  }

  function Without(fs: map<Path, Bytes>, cand: nat): map<Path, Bytes> {
    fs - {Candidate(cand)}
  }

  /** What follows when a copy is over. */
  function BackTo(caller: Caller, ok: bool): Pc {
    match caller
    case FromStore(asset, target) => Rechecking(asset, target)
    case IntoStore(asset, target, outer) => FetchUnlink(asset, target, outer, true)
    case Staging => if ok then Ready else Stopped(false)
  }

  function Begin(work: Work): Pc {
    match work
    case CheckAll(items) => Checking(items)
    case Fetch(asset, target) => Looking(asset, target)
    case Place(source, asset, target) => Placing(source, asset, target)
  }

  /** What one step shows to the outside. */
  datatype Event = Nothing | Replaced(name: string, data: Bytes) | Removed(cand: nat) | Returns(asset: Asset, name: string)

  datatype Effect = Effect(fs: map<Path, Bytes>, made: map<nat, nat>, todo: seq<Work>, pc: Pc, event: Event)

  /** A step that only moves on. */
  function Move(fs: map<Path, Bytes>, made: map<nat, nat>, me: Proc, pc: Pc): Effect {
    Effect(fs, made, me.todo, pc, Nothing)
  }

  /** `mkstemp`: an empty file under a name never used before. */
  function Make(fs: map<Path, Bytes>, made: map<nat, nat>, me: Proc, p: nat, cand: nat, pc: Pc): Effect {
    if cand in made then Move(fs, made, me, me.pc)
    else Effect(fs[Candidate(cand) := []], made[cand := p], me.todo, pc, Nothing)
  }

  /** Writing to the process's own candidate. */
  function Write(fs: map<Path, Bytes>, made: map<nat, nat>, me: Proc, cand: nat, data: Bytes, pc: Pc): Effect {
    Effect(fs[Candidate(cand) := data], made, me.todo, pc, Nothing)
  }

  /** `os.replace(candidate, name)`. */
  function Replace(fs: map<Path, Bytes>, made: map<nat, nat>, me: Proc, cand: nat, name: string, pc: Pc): Effect
    requires Candidate(cand) in fs
  {
    var data := fs[Candidate(cand)];
    Effect(Without(fs, cand)[Final(name) := data], made, me.todo, pc, Replaced(name, data))
  }

  /** `Path(candidate).unlink(missing_ok=True)`. */
  function Unlink(fs: map<Path, Bytes>, made: map<nat, nat>, me: Proc, cand: nat, pc: Pc): Effect {
    Effect(Without(fs, cand), made, me.todo, pc, Removed(cand))
  }

  /** One step of process `p`, at its program point, under the environment's choice. */
  function Act(cfg: Config, fs: map<Path, Bytes>, made: map<nat, nat>, me: Proc, p: nat, ch: Choice): Effect {
    match me.pc
    case Ready =>
      if me.todo == [] then Move(fs, made, me, Stopped(true))
      else Effect(fs, made, me.todo[1..], Begin(me.todo[0]), Nothing)
    case Checking(items) =>
      Move(fs, made, me,
        if items == [] then Stopped(true)
        else if Matches(cfg, fs, items[0].1, items[0].0.sha256) then Checking(items[1..])
        else Ready)
    case Placing(source, asset, target) =>
      Move(fs, made, me, if Matches(cfg, fs, target, asset.sha256) then Ready else CopyMake(source, target, Staging))
    case Looking(asset, target) =>
      Move(fs, made, me, if Matches(cfg, fs, target, asset.sha256) then FetchReturn(asset, target) else Sharing(asset, target))
    case Sharing(asset, target) =>
      var shared := SharedPath(cfg, asset);
      Move(fs, made, me,
        if shared.Some? && Matches(cfg, fs, shared.value, asset.sha256)
        then CopyMake(shared.value, target, FromStore(asset, target))
        else FetchMake(asset, target))
    case Rechecking(asset, target) =>
      Move(fs, made, me, if Matches(cfg, fs, target, asset.sha256) then FetchReturn(asset, target) else FetchMake(asset, target))
    case FetchMake(asset, target) =>
      if ch.outcome != Done then Move(fs, made, me, Stopped(false))
      else Make(fs, made, me, p, ch.name, FetchCurl(asset, target, ch.name, SourcesOf(asset)))
    case FetchCurl(asset, target, cand, urls) =>
      if urls == [] then Move(fs, made, me, FetchUnlink(asset, target, cand, false))
      else
        var pc := match ch.outcome
          case Done => FetchDigest(asset, target, cand, urls[1..])
          case Fails => FetchCurl(asset, target, cand, urls[1..])
          case Partial => me.pc;
        Write(fs, made, me, cand, ch.bytes, pc)
    case FetchDigest(asset, target, cand, urls) =>
      var same := Candidate(cand) in fs && cfg.hash(fs[Candidate(cand)]) == asset.sha256;
      Move(fs, made, me, if same then FetchRename(asset, target, cand) else FetchUnlink(asset, target, cand, false))
    case FetchRename(asset, target, cand) =>
      if ch.outcome != Done || Candidate(cand) !in fs then Move(fs, made, me, FetchUnlink(asset, target, cand, false))
      else
        var shared := SharedPath(cfg, asset);
        Replace(fs, made, me, cand, target,
          if shared.None? then FetchUnlink(asset, target, cand, true)
          else CopyMake(target, shared.value, IntoStore(asset, target, cand)))
    case FetchUnlink(asset, target, cand, ok) =>
      Unlink(fs, made, me, cand, if ok then FetchReturn(asset, target) else Stopped(false))
    case FetchReturn(asset, target) =>
      Effect(fs, made, me.todo, Ready, Returns(asset, target))
    case CopyMake(source, dest, caller) =>
      if ch.outcome != Done then Move(fs, made, me, BackTo(caller, false))
      else Make(fs, made, me, p, ch.name, CopyOpen(source, dest, ch.name, caller))
    case CopyOpen(source, dest, cand, caller) =>
      Move(fs, made, me,
        if ch.outcome != Done || Final(source) !in fs then CopyUnlink(dest, cand, caller, false)
        else CopyWrite(dest, cand, fs[Final(source)], caller))
    case CopyWrite(dest, cand, data, caller) =>
      (match ch.outcome
       case Done => Write(fs, made, me, cand, data, CopyRename(dest, cand, caller))
       case Fails => Write(fs, made, me, cand, ch.bytes, CopyUnlink(dest, cand, caller, false))
       case Partial => Write(fs, made, me, cand, ch.bytes, me.pc))
    case CopyRename(dest, cand, caller) =>
      if ch.outcome != Done || Candidate(cand) !in fs then Move(fs, made, me, CopyUnlink(dest, cand, caller, false))
      else Replace(fs, made, me, cand, dest, CopyUnlink(dest, cand, caller, true))
    case CopyUnlink(dest, cand, caller, ok) =>
      Unlink(fs, made, me, cand, BackTo(caller, ok))
    case Stopped(_) => Move(fs, made, me, me.pc)
  }

  /** What the process hears of a source in a step at `pc`. */
  function Heard(pc: Pc, ch: Choice): seq<(string, Answer)> {
    if pc.FetchCurl? && pc.urls != [] then
      match ch.outcome
      case Done => [(pc.urls[0], Content(ch.bytes))]
      case Fails => [(pc.urls[0], Refusal)]
      case Partial => []
    else []
  }

  /** The file operation that the environment lets fail in a step at `pc`. */
  function Broken(pc: Pc, ch: Choice): set<Op> {
    if ch.outcome == Done then {}
    else
      match pc
      case FetchMake(_, _) => {CreateFile}
      case FetchRename(_, _, _) => {RenameFile}
      case CopyMake(_, _, _) => {CopyFile}
      case CopyOpen(_, _, _, _) => {CopyFile}
      case CopyWrite(_, _, _, _) => if ch.outcome == Fails then {CopyFile} else {}
      case CopyRename(_, _, _) => {CopyFile}
      case _ => {}
  }

  /** The memory after a step; it begins anew with each piece of work. */
  function Remember(me: Proc, ch: Choice): Proc {
    if me.pc == Ready && me.todo != [] then me.(doing := Some(me.todo[0]), asked := [], failed := {})
    else me.(asked := me.asked + Heard(me.pc, ch), failed := me.failed + Broken(me.pc, ch))
  }

  /** The world after one step of `p`. */
  function Next(cfg: Config, w: World, p: nat, ch: Choice): World
    requires p in w.procs
  {
    var me := w.procs[p];
    var e := Act(cfg, w.fs, w.made, me, p, ch);
    World(e.fs, e.made, w.procs[p := Remember(me, ch).(todo := e.todo, pc := e.pc)],
      if e.event.Replaced? then w.renamed + [(e.event.name, e.event.data)] else w.renamed,
      if e.event.Removed? then w.unlinked + [(p, e.event.cand)] else w.unlinked,
      if e.event.Returns? then w.returned + [(e.event.asset, e.event.name)] else w.returned)
  }

  // ------------------------------------------------------------------ the invariant

  /** The path holds the bytes it is pinned to. */
  ghost predicate Good(cfg: Config, fs: map<Path, Bytes>, name: string) {
    name in cfg.pin && Matches(cfg, fs, name, cfg.pin[name])
  }

  /** One path has one pin: the target's, and the shared path's, is the asset's digest. */
  ghost predicate Pinned(cfg: Config, asset: Asset, name: string) {
    && name in cfg.pin && cfg.pin[name] == asset.sha256
    && (var shared := SharedPath(cfg, asset); shared.Some? ==> shared.value in cfg.pin && cfg.pin[shared.value] == asset.sha256)
  }

  ghost predicate ItemsPinned(cfg: Config, items: seq<(Asset, string)>) {
    forall i :: 0 <= i < |items| ==> Pinned(cfg, items[i].0, items[i].1)
  }

  ghost function Names(items: seq<(Asset, string)>): set<string> {
    set i | 0 <= i < |items| :: items[i].1
  }

  ghost predicate WorkPinned(cfg: Config, t: Work) {
    match t
    case CheckAll(items) => ItemsPinned(cfg, items)
    case Fetch(asset, target) => Pinned(cfg, asset, target)
    case Place(source, asset, target) => Pinned(cfg, asset, target) && Pinned(cfg, asset, source)
  }

  /** A staged file's source is already good, or is fetched by the work in hand or by an earlier piece. */
  ghost predicate Supplied(cfg: Config, fs: map<Path, Bytes>, me: Proc, i: nat)
    requires i < |me.todo|
  {
    me.todo[i].Place? ==>
      || Good(cfg, fs, me.todo[i].source)
      || me.todo[i].source in Aim(me.pc)
      || exists j :: 0 <= j < i && me.todo[j].Fetch? && me.todo[j].target == me.todo[i].source
  }

  /** What the process is still going to put in place. */
  ghost function Pending(todo: seq<Work>): set<string> {
    set i | 0 <= i < |todo| && (todo[i].Fetch? || todo[i].Place?) :: todo[i].target
  }

  ghost predicate CallerFine(cfg: Config, fs: map<Path, Bytes>, made: map<nat, nat>, p: nat, dest: string, caller: Caller) {
    match caller
    case FromStore(asset, target) => dest == target && Pinned(cfg, asset, target)
    case IntoStore(asset, target, outer) =>
      Pinned(cfg, asset, target) && Good(cfg, fs, target) && Owns(made, p, outer) && Candidate(outer) !in fs
    case Staging => true
  }

  ghost predicate Owns(made: map<nat, nat>, p: nat, cand: nat) {
    cand in made && made[cand] == p
  }

  ghost predicate OwnBytes(cfg: Config, fs: map<Path, Bytes>, made: map<nat, nat>, p: nat, cand: nat, dest: string) {
    Owns(made, p, cand) && dest in cfg.pin && (Candidate(cand) in fs ==> cfg.hash(fs[Candidate(cand)]) == cfg.pin[dest])
  }

  /** The copy's candidate, next to the one `fetch_asset` has already renamed away. */
  ghost predicate OwnsApart(made: map<nat, nat>, p: nat, cand: nat, caller: Caller) {
    Owns(made, p, cand) && (caller.IntoStore? ==> caller.outer != cand)
  }

  ghost predicate PcFine(cfg: Config, fs: map<Path, Bytes>, made: map<nat, nat>, p: nat, pc: Pc) {
    match pc
    case Ready => true
    case Checking(items) => ItemsPinned(cfg, items)
    case Placing(source, asset, target) => Pinned(cfg, asset, target) && Good(cfg, fs, source) && cfg.pin[source] == asset.sha256
    case Looking(asset, target) => Pinned(cfg, asset, target)
    case Sharing(asset, target) => Pinned(cfg, asset, target)
    case Rechecking(asset, target) => Pinned(cfg, asset, target)
    case FetchMake(asset, target) => Pinned(cfg, asset, target)
    case FetchCurl(asset, target, cand, urls) => Pinned(cfg, asset, target) && Owns(made, p, cand)
    case FetchDigest(asset, target, cand, urls) => Pinned(cfg, asset, target) && Owns(made, p, cand)
    case FetchRename(asset, target, cand) => Pinned(cfg, asset, target) && OwnBytes(cfg, fs, made, p, cand, target)
    case FetchUnlink(asset, target, cand, ok) =>
      Pinned(cfg, asset, target) && Owns(made, p, cand) && (ok ==> Good(cfg, fs, target))
    case FetchReturn(asset, target) => Pinned(cfg, asset, target) && Good(cfg, fs, target)
    case CopyMake(source, dest, caller) =>
      Good(cfg, fs, source) && dest in cfg.pin && cfg.pin[source] == cfg.pin[dest] && CallerFine(cfg, fs, made, p, dest, caller)
    case CopyOpen(source, dest, cand, caller) =>
      && Good(cfg, fs, source) && dest in cfg.pin && cfg.pin[source] == cfg.pin[dest]
      && CallerFine(cfg, fs, made, p, dest, caller) && OwnsApart(made, p, cand, caller)
    case CopyWrite(dest, cand, data, caller) =>
      dest in cfg.pin && cfg.hash(data) == cfg.pin[dest] && CallerFine(cfg, fs, made, p, dest, caller) && OwnsApart(made, p, cand, caller)
    case CopyRename(dest, cand, caller) =>
      OwnBytes(cfg, fs, made, p, cand, dest) && OwnsApart(made, p, cand, caller) && CallerFine(cfg, fs, made, p, dest, caller)
    case CopyUnlink(dest, cand, caller, ok) =>
      OwnsApart(made, p, cand, caller) && CallerFine(cfg, fs, made, p, dest, caller) && (ok ==> Good(cfg, fs, dest))
    case Stopped(_) => true
  }

  /** The candidate a process may have on disk. */
  ghost function Held(pc: Pc): set<nat> {
    match pc
    case FetchCurl(_, _, cand, _) => {cand}
    case FetchDigest(_, _, cand, _) => {cand}
    case FetchRename(_, _, cand) => {cand}
    case FetchUnlink(_, _, cand, _) => {cand}
    case CopyOpen(_, _, cand, _) => {cand}
    case CopyWrite(_, cand, _, _) => {cand}
    case CopyRename(_, cand, _) => {cand}
    case CopyUnlink(_, cand, _, _) => {cand}
    case _ => {}
  }

  ghost function CallerAim(dest: string, caller: Caller): set<string> {
    match caller
    case FromStore(asset, target) => {target}
    case IntoStore(asset, target, outer) => {target}
    case Staging => {dest}
  }

  /** What the work in hand is going to put in place, if it ends well. */
  ghost function Aim(pc: Pc): set<string> {
    match pc
    case Checking(items) => {}
    case Placing(_, _, target) => {target}
    case Looking(_, target) => {target}
    case Sharing(_, target) => {target}
    case Rechecking(_, target) => {target}
    case FetchMake(_, target) => {target}
    case FetchCurl(_, target, _, _) => {target}
    case FetchDigest(_, target, _, _) => {target}
    case FetchRename(_, target, _) => {target}
    case FetchUnlink(_, target, _, ok) => {target}
    case FetchReturn(_, target) => {target}
    case CopyMake(_, dest, caller) => CallerAim(dest, caller)
    case CopyOpen(_, dest, _, caller) => CallerAim(dest, caller)
    case CopyWrite(dest, _, _, caller) => CallerAim(dest, caller)
    case CopyRename(dest, _, caller) => CallerAim(dest, caller)
    case CopyUnlink(dest, _, caller, _) => CallerAim(dest, caller)
    case _ => {}
  }

  /** Every goal is good, or still ahead of a process that has not failed. */
  ghost predicate GoalsFine(cfg: Config, fs: map<Path, Bytes>, me: Proc) {
    && (me.pc != Stopped(false) && !me.pc.Checking? ==>
          forall n :: n in me.goals ==> Good(cfg, fs, n) || n in Pending(me.todo) + Aim(me.pc))
    && (me.pc == Stopped(true) ==> forall n :: n in me.goals ==> Good(cfg, fs, n))
    && (me.pc.Checking? ==> forall n :: n in me.goals ==>
          (Good(cfg, fs, n) || n in Names(me.pc.items)) && n in Pending(me.todo))
  }

  /** `stage` puts its quick check first, over all of its goals. */
  ghost predicate TodoFine(cfg: Config, fs: map<Path, Bytes>, me: Proc) {
    && (forall i :: 0 <= i < |me.todo| ==> WorkPinned(cfg, me.todo[i]) && Supplied(cfg, fs, me, i))
    && (forall i :: 0 <= i < |me.todo| && me.todo[i].CheckAll? ==>
          i == 0 && me.pc == Ready && me.goals <= Names(me.todo[i].items) && me.goals <= Pending(me.todo))
  }

  ghost predicate ProcFine(cfg: Config, fs: map<Path, Bytes>, made: map<nat, nat>, p: nat, me: Proc) {
    PcFine(cfg, fs, made, p, me.pc) && GoalsFine(cfg, fs, me) && (me.pc != Stopped(false) ==> TodoFine(cfg, fs, me))
  }

  /** Candidates on disk belong to a process that still holds them. */
  ghost predicate CandidatesHeld(w: World) {
    forall c {:trigger Candidate(c)} :: Candidate(c) in w.fs ==>
      c in w.made && w.made[c] in w.procs && c in Held(w.procs[w.made[c]].pc)
  }

  ghost predicate LogsFine(cfg: Config, w: World) {
    && (forall e :: e in w.renamed ==> e.0 in cfg.pin && cfg.hash(e.1) == cfg.pin[e.0])
    && (forall e :: e in w.unlinked ==> Owns(w.made, e.0, e.1))
    && (forall e :: e in w.returned ==> Good(cfg, w.fs, e.1) && cfg.pin[e.1] == e.0.sha256)
  }

  ghost predicate Inv(cfg: Config, w: World) {
    && (forall p :: p in w.procs ==> ProcFine(cfg, w.fs, w.made, p, w.procs[p]))
    && CandidatesHeld(w)
    && LogsFine(cfg, w)
  }

  // ------------------------------------------------------------------ one step keeps it

  /** What a step of `p` may change as far as the others can tell. */
  ghost predicate Keeps(cfg: Config, fs: map<Path, Bytes>, made: map<nat, nat>, fs': map<Path, Bytes>, made': map<nat, nat>, p: nat) {
    && (forall n {:trigger Good(cfg, fs', n)} :: Good(cfg, fs, n) ==> Good(cfg, fs', n))
    && (forall c :: c in made ==> c in made' && made'[c] == made[c])
    && (forall c {:trigger Candidate(c)} :: c in made && made[c] != p ==>
          (Candidate(c) in fs' <==> Candidate(c) in fs) && (Candidate(c) in fs ==> fs'[Candidate(c)] == fs[Candidate(c)]))
  }

  predicate Copying(pc: Pc) {
    pc.CopyMake? || pc.CopyOpen? || pc.CopyWrite? || pc.CopyRename? || pc.CopyUnlink?
  }

  lemma CopyKeeps(cfg: Config, fs: map<Path, Bytes>, made: map<nat, nat>, me: Proc, p: nat, ch: Choice)
    requires PcFine(cfg, fs, made, p, me.pc) && Copying(me.pc)
    ensures var e := Act(cfg, fs, made, me, p, ch); Keeps(cfg, fs, made, e.fs, e.made, p)
  {
    hide CallerFine, Pinned;
  }

  lemma FetchKeeps(cfg: Config, fs: map<Path, Bytes>, made: map<nat, nat>, me: Proc, p: nat, ch: Choice)
    requires PcFine(cfg, fs, made, p, me.pc) && !Copying(me.pc)
    ensures var e := Act(cfg, fs, made, me, p, ch); Keeps(cfg, fs, made, e.fs, e.made, p)
  {
    hide CallerFine;
  }

  lemma ActKeeps(cfg: Config, fs: map<Path, Bytes>, made: map<nat, nat>, me: Proc, p: nat, ch: Choice)
    requires PcFine(cfg, fs, made, p, me.pc)
    ensures var e := Act(cfg, fs, made, me, p, ch); Keeps(cfg, fs, made, e.fs, e.made, p)
  {
    hide PcFine, Act, Keeps;
    if Copying(me.pc) { CopyKeeps(cfg, fs, made, me, p, ch); } else { FetchKeeps(cfg, fs, made, me, p, ch); }
  }

  lemma OtherFine(cfg: Config, fs: map<Path, Bytes>, made: map<nat, nat>, fs': map<Path, Bytes>, made': map<nat, nat>, p: nat, q: nat, me: Proc)
    requires Keeps(cfg, fs, made, fs', made', p) && q != p && ProcFine(cfg, fs, made, q, me)
    ensures ProcFine(cfg, fs', made', q, me)
  {
    hide Good, Pinned;
  }

  lemma TakeWork(cfg: Config, fs: map<Path, Bytes>, made: map<nat, nat>, me: Proc, p: nat, ch: Choice)
    requires ProcFine(cfg, fs, made, p, me) && me.pc == Ready
    ensures var e := Act(cfg, fs, made, me, p, ch); ProcFine(cfg, e.fs, e.made, p, me.(todo := e.todo, pc := e.pc))
  {
    hide Good;
  }

  lemma CheckItem(cfg: Config, fs: map<Path, Bytes>, made: map<nat, nat>, me: Proc, p: nat, ch: Choice)
    requires ProcFine(cfg, fs, made, p, me) && me.pc.Checking?
    ensures var e := Act(cfg, fs, made, me, p, ch); ProcFine(cfg, e.fs, e.made, p, me.(todo := e.todo, pc := e.pc))
  {
  }

  /** A caller is still served after any step that leaves its own candidate away. */
  lemma CallerKept(cfg: Config, fs: map<Path, Bytes>, made: map<nat, nat>, fs': map<Path, Bytes>, made': map<nat, nat>,
                   p: nat, dest: string, caller: Caller)
    requires CallerFine(cfg, fs, made, p, dest, caller) && Keeps(cfg, fs, made, fs', made', p)
    requires caller.IntoStore? ==> Candidate(caller.outer) !in fs'
    ensures CallerFine(cfg, fs', made', p, dest, caller)
  {
  }

  lemma BackPc(cfg: Config, fs: map<Path, Bytes>, made: map<nat, nat>, p: nat, dest: string, caller: Caller, ok: bool)
    requires CallerFine(cfg, fs, made, p, dest, caller)
    ensures PcFine(cfg, fs, made, p, BackTo(caller, ok))
  {
  }

  lemma CopyPc(cfg: Config, fs: map<Path, Bytes>, made: map<nat, nat>, me: Proc, p: nat, ch: Choice)
    requires PcFine(cfg, fs, made, p, me.pc) && Copying(me.pc)
    ensures var e := Act(cfg, fs, made, me, p, ch); PcFine(cfg, e.fs, e.made, p, e.pc)
  {
    var e := Act(cfg, fs, made, me, p, ch);
    ActKeeps(cfg, fs, made, me, p, ch);
    var caller := me.pc.caller;
    assert CallerFine(cfg, fs, made, p, me.pc.dest, caller);
    assert caller.IntoStore? ==> Candidate(caller.outer) !in e.fs;
    CallerKept(cfg, fs, made, e.fs, e.made, p, me.pc.dest, caller);
    hide CallerFine, Keeps, BackTo, Matches;
    if me.pc.CopyMake? {
      BackPc(cfg, e.fs, e.made, p, me.pc.dest, caller, false);
    } else if me.pc.CopyUnlink? {
      BackPc(cfg, e.fs, e.made, p, me.pc.dest, caller, me.pc.ok);
    }
  }

  /** From the first source to the return. */
  predicate Downloading(pc: Pc) {
    pc.FetchCurl? || pc.FetchDigest? || pc.FetchRename? || pc.FetchUnlink? || pc.FetchReturn?
  }

  lemma DownloadPc(cfg: Config, fs: map<Path, Bytes>, made: map<nat, nat>, me: Proc, p: nat, ch: Choice)
    requires PcFine(cfg, fs, made, p, me.pc) && Downloading(me.pc)
    ensures var e := Act(cfg, fs, made, me, p, ch); PcFine(cfg, e.fs, e.made, p, e.pc)
  {
  }

  lemma LookPc(cfg: Config, fs: map<Path, Bytes>, made: map<nat, nat>, me: Proc, p: nat, ch: Choice)
    requires PcFine(cfg, fs, made, p, me.pc) && !Copying(me.pc) && !Downloading(me.pc) && me.pc != Ready && !me.pc.Checking?
    ensures var e := Act(cfg, fs, made, me, p, ch); PcFine(cfg, e.fs, e.made, p, e.pc)
  {
  }

  lemma FetchPc(cfg: Config, fs: map<Path, Bytes>, made: map<nat, nat>, me: Proc, p: nat, ch: Choice)
    requires PcFine(cfg, fs, made, p, me.pc) && !Copying(me.pc) && me.pc != Ready && !me.pc.Checking?
    ensures var e := Act(cfg, fs, made, me, p, ch); PcFine(cfg, e.fs, e.made, p, e.pc)
  {
    hide PcFine, Act;
    if Downloading(me.pc) { DownloadPc(cfg, fs, made, me, p, ch); } else { LookPc(cfg, fs, made, me, p, ch); }
  }

  /** The process still aims at what it aimed at, or has put it in place, or has failed. */
  ghost predicate StillAims(cfg: Config, me: Proc, e: Effect) {
    && e.todo == me.todo && !e.pc.Checking? && (e.pc == Stopped(true) ==> me.pc == Stopped(true))
    && (e.pc == Ready ==> me.pc != Stopped(false)) && (me.pc == Stopped(false) ==> e.pc == me.pc)
    && (e.pc != Stopped(false) ==> forall n :: n in Aim(me.pc) ==> n in Aim(e.pc) || Good(cfg, e.fs, n))
  }

  lemma CopyAim(cfg: Config, fs: map<Path, Bytes>, made: map<nat, nat>, me: Proc, p: nat, ch: Choice)
    requires PcFine(cfg, fs, made, p, me.pc) && Copying(me.pc)
    ensures StillAims(cfg, me, Act(cfg, fs, made, me, p, ch))
  {
    CopyKeeps(cfg, fs, made, me, p, ch);
    hide Good, Pinned, CallerFine;
  }

  lemma DownloadAim(cfg: Config, fs: map<Path, Bytes>, made: map<nat, nat>, me: Proc, p: nat, ch: Choice)
    requires PcFine(cfg, fs, made, p, me.pc) && Downloading(me.pc)
    ensures StillAims(cfg, me, Act(cfg, fs, made, me, p, ch))
  {
    hide Good, Pinned;
  }

  lemma LookAim(cfg: Config, fs: map<Path, Bytes>, made: map<nat, nat>, me: Proc, p: nat, ch: Choice)
    requires PcFine(cfg, fs, made, p, me.pc) && !Copying(me.pc) && !Downloading(me.pc) && me.pc != Ready && !me.pc.Checking?
    ensures StillAims(cfg, me, Act(cfg, fs, made, me, p, ch))
  {
  }

  /** Within one piece of work the aim is kept. */
  lemma WithinAim(cfg: Config, fs: map<Path, Bytes>, made: map<nat, nat>, me: Proc, p: nat, ch: Choice)
    requires PcFine(cfg, fs, made, p, me.pc) && me.pc != Ready && !me.pc.Checking?
    ensures StillAims(cfg, me, Act(cfg, fs, made, me, p, ch))
  {
    hide PcFine, Act, StillAims;
    if Copying(me.pc) {
      CopyAim(cfg, fs, made, me, p, ch);
    } else if Downloading(me.pc) {
      DownloadAim(cfg, fs, made, me, p, ch);
    } else {
      LookAim(cfg, fs, made, me, p, ch);
    }
  }

  lemma SelfFine(cfg: Config, fs: map<Path, Bytes>, made: map<nat, nat>, me: Proc, p: nat, ch: Choice)
    requires ProcFine(cfg, fs, made, p, me)
    ensures var e := Act(cfg, fs, made, me, p, ch); ProcFine(cfg, e.fs, e.made, p, me.(todo := e.todo, pc := e.pc))
  {
    hide PcFine, Act, Copying, Aim, Good;
    if me.pc == Ready {
      TakeWork(cfg, fs, made, me, p, ch);
    } else if me.pc.Checking? {
      CheckItem(cfg, fs, made, me, p, ch);
    } else {
      if Copying(me.pc) { CopyPc(cfg, fs, made, me, p, ch); } else { FetchPc(cfg, fs, made, me, p, ch); }
      ActKeeps(cfg, fs, made, me, p, ch);
      WithinAim(cfg, fs, made, me, p, ch);
    }
  }

  /** What a step of `p` does to one candidate file. */
  ghost predicate StillHeld(fs: map<Path, Bytes>, e: Effect, p: nat, c: nat) {
    Candidate(c) in e.fs ==> c in e.made && if e.made[c] == p then c in Held(e.pc) else Candidate(c) in fs
  }

  lemma CopyHeld(cfg: Config, fs: map<Path, Bytes>, made: map<nat, nat>, me: Proc, p: nat, ch: Choice, c: nat)
    requires PcFine(cfg, fs, made, p, me.pc) && Copying(me.pc)
    requires Candidate(c) in fs ==> c in made && (made[c] == p ==> c in Held(me.pc))
    ensures StillHeld(fs, Act(cfg, fs, made, me, p, ch), p, c)
  {
    hide Pinned, Good;
  }

  lemma FetchHeld(cfg: Config, fs: map<Path, Bytes>, made: map<nat, nat>, me: Proc, p: nat, ch: Choice, c: nat)
    requires PcFine(cfg, fs, made, p, me.pc) && !Copying(me.pc)
    requires Candidate(c) in fs ==> c in made && (made[c] == p ==> c in Held(me.pc))
    ensures StillHeld(fs, Act(cfg, fs, made, me, p, ch), p, c)
  {
    hide Pinned, Good;
  }

  lemma SelfHeld(cfg: Config, fs: map<Path, Bytes>, made: map<nat, nat>, me: Proc, p: nat, ch: Choice, c: nat)
    requires PcFine(cfg, fs, made, p, me.pc)
    requires Candidate(c) in fs ==> c in made && (made[c] == p ==> c in Held(me.pc))
    ensures StillHeld(fs, Act(cfg, fs, made, me, p, ch), p, c)
  {
    hide PcFine, Act, Held, StillHeld;
    if Copying(me.pc) { CopyHeld(cfg, fs, made, me, p, ch, c); } else { FetchHeld(cfg, fs, made, me, p, ch, c); }
  }

  lemma LogEvent(cfg: Config, fs: map<Path, Bytes>, made: map<nat, nat>, me: Proc, p: nat, ch: Choice)
    requires PcFine(cfg, fs, made, p, me.pc)
    ensures var e := Act(cfg, fs, made, me, p, ch); match e.event
      case Nothing => true
      case Replaced(name, data) => name in cfg.pin && cfg.hash(data) == cfg.pin[name]
      case Removed(cand) => Owns(e.made, p, cand)
      case Returns(asset, name) => Good(cfg, e.fs, name) && cfg.pin[name] == asset.sha256
  {
  }

  lemma MemoryFine(cfg: Config, fs: map<Path, Bytes>, made: map<nat, nat>, p: nat, me: Proc, todo: seq<Work>, pc: Pc, ch: Choice)
    requires ProcFine(cfg, fs, made, p, me.(todo := todo, pc := pc))
    ensures ProcFine(cfg, fs, made, p, Remember(me, ch).(todo := todo, pc := pc))
  {
    hide PcFine, Good, WorkPinned, Heard, Broken, Aim, Pending;
    var was, now := me.(todo := todo, pc := pc), Remember(me, ch).(todo := todo, pc := pc);
    forall i: nat | i < |todo| ensures Supplied(cfg, fs, was, i) <==> Supplied(cfg, fs, now, i) {
    }
  }

  lemma StepInv(cfg: Config, w: World, p: nat, ch: Choice)
    requires Inv(cfg, w) && p in w.procs
    ensures Inv(cfg, Next(cfg, w, p, ch))
  {
    hide PcFine, ProcFine, Act, Good, Held, Matches;
    var w', me := Next(cfg, w, p, ch), w.procs[p];
    ProcPc(cfg, w, p);
    ActKeeps(cfg, w.fs, w.made, me, p, ch);
    forall q | q in w'.procs
      ensures ProcFine(cfg, w'.fs, w'.made, q, w'.procs[q])
    {
      if q == p {
        SelfFine(cfg, w.fs, w.made, me, p, ch);
        MemoryFine(cfg, w'.fs, w'.made, p, me, w'.procs[p].todo, w'.procs[p].pc, ch);
      } else {
        OtherFine(cfg, w.fs, w.made, w'.fs, w'.made, p, q, w.procs[q]);
      }
    }
    forall c {:trigger Candidate(c)} | Candidate(c) in w'.fs
      ensures c in w'.made && w'.made[c] in w'.procs && c in Held(w'.procs[w'.made[c]].pc)
    {
      SelfHeld(cfg, w.fs, w.made, me, p, ch, c);
    }
    LogEvent(cfg, w.fs, w.made, me, p, ch);
  }

  lemma ProcPc(cfg: Config, w: World, p: nat)
    requires Inv(cfg, w) && p in w.procs
    ensures PcFine(cfg, w.fs, w.made, p, w.procs[p].pc)
  {
  }

  // ------------------------------------------------------------------ whole runs

  /** One file of a dependency: where the download directory keeps it and where `stage` puts it. */
  datatype Item = Item(asset: Asset, cache: string, dest: string)

  function FetchJob(asset: Asset, target: string): Proc {
    Proc([Fetch(asset, target)], Ready, {target}, None, [], {})
  }

  /** `stage`: the quick check, then `fetch` for every asset, then the copies. */
  function StageJob(items: seq<Item>): Proc {
    var wanted := seq(|items|, i requires 0 <= i < |items| => (items[i].asset, items[i].dest));
    var fetches := seq(|items|, i requires 0 <= i < |items| => Fetch(items[i].asset, items[i].cache));
    var places := seq(|items|, i requires 0 <= i < |items| => Place(items[i].cache, items[i].asset, items[i].dest));
    Proc([CheckAll(wanted)] + fetches + places, Ready, set i | 0 <= i < |items| :: items[i].dest, None, [], {})
  }

  ghost predicate IsJob(cfg: Config, me: Proc) {
    || (exists asset, target :: me == FetchJob(asset, target) && Pinned(cfg, asset, target))
    || (exists items: seq<Item> :: me == StageJob(items) && forall i :: 0 <= i < |items| ==>
          Pinned(cfg, items[i].asset, items[i].cache) && Pinned(cfg, items[i].asset, items[i].dest))
  }

  /** Any files may be there, with any bytes; no process has done anything yet. */
  ghost predicate Start(cfg: Config, w: World) {
    && w.made == map[] && (forall f :: f in w.fs ==> f.Final?)
    && w.renamed == [] && w.unlinked == [] && w.returned == []
    && forall p :: p in w.procs ==> IsJob(cfg, w.procs[p])
  }

  lemma StageJobFine(cfg: Config, fs: map<Path, Bytes>, items: seq<Item>)
    requires forall i :: 0 <= i < |items| ==>
      Pinned(cfg, items[i].asset, items[i].cache) && Pinned(cfg, items[i].asset, items[i].dest)
    ensures GoalsFine(cfg, fs, StageJob(items)) && TodoFine(cfg, fs, StageJob(items))
  {
    hide Pinned, Good;
    var me, n := StageJob(items), |items|;
    forall i | 0 <= i < |me.todo|
      ensures WorkPinned(cfg, me.todo[i]) && Supplied(cfg, fs, me, i)
    {
      if i > n { assert me.todo[i - n].Fetch? && me.todo[i - n].target == me.todo[i].source; }
    }
    forall g | g in me.goals
      ensures g in Pending(me.todo) && g in Names(me.todo[0].items)
    {
      var i :| 0 <= i < n && items[i].dest == g;
      assert me.todo[1 + n + i].target == g && me.todo[0].items[i].1 == g;
    }
  }

  lemma FetchJobFine(cfg: Config, fs: map<Path, Bytes>, asset: Asset, target: string)
    requires Pinned(cfg, asset, target)
    ensures GoalsFine(cfg, fs, FetchJob(asset, target)) && TodoFine(cfg, fs, FetchJob(asset, target))
  {
    hide Pinned, Good;
    var me := FetchJob(asset, target);
    assert me.todo[0].Fetch? && me.goals == {me.todo[0].target};
  }

  lemma JobFine(cfg: Config, fs: map<Path, Bytes>, made: map<nat, nat>, p: nat, me: Proc)
    requires IsJob(cfg, me)
    ensures ProcFine(cfg, fs, made, p, me)
  {
    hide Pinned, Good, GoalsFine, TodoFine;
    if items: seq<Item> :| me == StageJob(items) && forall i :: 0 <= i < |items| ==>
        Pinned(cfg, items[i].asset, items[i].cache) && Pinned(cfg, items[i].asset, items[i].dest) {
      StageJobFine(cfg, fs, items);
    } else {
      var asset, target :| me == FetchJob(asset, target) && Pinned(cfg, asset, target);
      FetchJobFine(cfg, fs, asset, target);
    }
  }

  lemma StartInv(cfg: Config, w: World)
    requires Start(cfg, w)
    ensures Inv(cfg, w)
  {
    hide IsJob, ProcFine;
    forall p | p in w.procs
      ensures ProcFine(cfg, w.fs, w.made, p, w.procs[p])
    {
      JobFine(cfg, w.fs, w.made, p, w.procs[p]);
    }
  }

  ghost predicate StepsTo(cfg: Config, w: World, w': World) {
    exists p, ch :: p in w.procs && w' == Next(cfg, w, p, ch)
  }

  /** Any interleaving; a process that is never scheduled again has stopped wherever it was. */
  ghost predicate Run(cfg: Config, ws: seq<World>) {
    ws != [] && Start(cfg, ws[0]) && forall i :: 0 <= i < |ws| - 1 ==> StepsTo(cfg, ws[i], ws[i + 1])
  }

  lemma {:induction false} RunInv(cfg: Config, ws: seq<World>, i: nat)
    requires Run(cfg, ws) && i < |ws|
    ensures Inv(cfg, ws[i])
    decreases i
  {
    hide Inv, Start, Next;
    if i == 0 {
      StartInv(cfg, ws[0]);
    } else {
      RunInv(cfg, ws, i - 1);
      assert StepsTo(cfg, ws[i - 1], ws[(i - 1) + 1]);
      var p, ch :| p in ws[i - 1].procs && ws[i] == Next(cfg, ws[i - 1], p, ch);
      StepInv(cfg, ws[i - 1], p, ch);
    }
  }

  /** What a later moment of a run keeps of an earlier one. */
  ghost predicate Later(cfg: Config, w: World, w': World) {
    && (forall n {:trigger Good(cfg, w'.fs, n)} :: Good(cfg, w.fs, n) ==> Good(cfg, w'.fs, n))
    && w.renamed <= w'.renamed && w.unlinked <= w'.unlinked && w.returned <= w'.returned
  }

  lemma StepLater(cfg: Config, w: World, p: nat, ch: Choice)
    requires Inv(cfg, w) && p in w.procs
    ensures Later(cfg, w, Next(cfg, w, p, ch))
  {
    hide PcFine, Act, Good;
    ProcPc(cfg, w, p);
    ActKeeps(cfg, w.fs, w.made, w.procs[p], p, ch);
  }

  lemma {:induction false} RunLater(cfg: Config, ws: seq<World>, i: nat, j: nat)
    requires Run(cfg, ws) && i <= j < |ws|
    ensures Later(cfg, ws[i], ws[j])
    decreases j
  {
    hide Inv, Start, Next, Good;
    if i < j {
      RunLater(cfg, ws, i, j - 1);
      RunInv(cfg, ws, j - 1);
      assert StepsTo(cfg, ws[j - 1], ws[(j - 1) + 1]);
      var p, ch :| p in ws[j - 1].procs && ws[j] == Next(cfg, ws[j - 1], p, ch);
      StepLater(cfg, ws[j - 1], p, ch);
    }
  }

  /** Everything ever renamed onto a path hashes to that path's pin. */
  lemma RenamesArePinned(cfg: Config, ws: seq<World>, i: nat, e: (string, Bytes))
    requires Run(cfg, ws) && i < |ws| && e in ws[i].renamed
    ensures e.0 in cfg.pin && cfg.hash(e.1) == cfg.pin[e.0]
  {
    RunInv(cfg, ws, i);
  }

  /** A path that matches its pin matches it forever after. */
  lemma MatchesForever(cfg: Config, ws: seq<World>, i: nat, j: nat, name: string)
    requires Run(cfg, ws) && i <= j < |ws| && Good(cfg, ws[i].fs, name)
    ensures Good(cfg, ws[j].fs, name)
  {
    RunLater(cfg, ws, i, j);
  }

  /** A path `fetch_asset` has returned holds the asset's bytes then and ever after. */
  lemma ReturnedMatches(cfg: Config, ws: seq<World>, i: nat, j: nat, e: (Asset, string))
    requires Run(cfg, ws) && i <= j < |ws| && e in ws[i].returned
    ensures Matches(cfg, ws[j].fs, e.1, e.0.sha256)
  {
    RunInv(cfg, ws, i);
    RunLater(cfg, ws, i, j);
    assert Good(cfg, ws[i].fs, e.1);
    assert Good(cfg, ws[j].fs, e.1);
  }

  /** A process that ends well has everything it was asked for in place, and it stays there. */
  lemma FinishedInPlace(cfg: Config, ws: seq<World>, i: nat, j: nat, p: nat, name: string)
    requires Run(cfg, ws) && i <= j < |ws| && p in ws[i].procs && ws[i].procs[p].pc == Stopped(true)
    requires name in ws[i].procs[p].goals
    ensures Good(cfg, ws[j].fs, name)
  {
    RunInv(cfg, ws, i);
    RunLater(cfg, ws, i, j);
    assert ProcFine(cfg, ws[i].fs, ws[i].made, p, ws[i].procs[p]);
    assert Good(cfg, ws[i].fs, name);
  }

  /** No process ever unlinks a candidate that another one made. */
  lemma UnlinksOwn(cfg: Config, ws: seq<World>, i: nat, e: (nat, nat))
    requires Run(cfg, ws) && i < |ws| && e in ws[i].unlinked
    ensures e.1 in ws[i].made && ws[i].made[e.1] == e.0
  {
    RunInv(cfg, ws, i);
  }

  /** A process that ended, well or not, left no candidate behind. */
  lemma LeavesNoCandidate(cfg: Config, ws: seq<World>, i: nat, p: nat, c: nat)
    requires Run(cfg, ws) && i < |ws| && p in ws[i].procs && ws[i].procs[p].pc.Stopped?
    requires c in ws[i].made && ws[i].made[c] == p
    ensures Candidate(c) !in ws[i].fs
  {
    RunInv(cfg, ws, i);
  }

  /** The bytes in hand are not the asset's, or the fetch has already failed. */
  ghost predicate Mismatched(cfg: Config, w: World, p: nat) {
    p in w.procs && match w.procs[p].pc
    case FetchDigest(asset, target, cand, urls) => Candidate(cand) in w.fs ==> cfg.hash(w.fs[Candidate(cand)]) != asset.sha256
    case FetchUnlink(asset, target, cand, ok) => !ok
    case Stopped(ok) => !ok
    case _ => false
  }

  lemma MismatchStep(cfg: Config, w: World, p: nat, q: nat, ch: Choice)
    requires Inv(cfg, w) && q in w.procs && Mismatched(cfg, w, p)
    ensures Mismatched(cfg, Next(cfg, w, q, ch), p)
  {
    hide Good, Matches, ProcFine, Pinned;
    ProcPc(cfg, w, p);
    ProcPc(cfg, w, q);
    if q != p {
      ActKeeps(cfg, w.fs, w.made, w.procs[q], q, ch);
      hide Act;
    }
  }

  /** A source that answered with other bytes ends the fetch: no later source is tried, whatever the others do. */
  lemma {:induction false} MismatchEnds(cfg: Config, ws: seq<World>, i: nat, j: nat, p: nat)
    requires Run(cfg, ws) && i <= j < |ws| && Mismatched(cfg, ws[i], p)
    ensures Mismatched(cfg, ws[j], p)
    decreases j
  {
    hide Inv, Start, Next, Mismatched;
    if i < j {
      MismatchEnds(cfg, ws, i, j - 1, p);
      RunInv(cfg, ws, j - 1);
      assert StepsTo(cfg, ws[j - 1], ws[(j - 1) + 1]);
      var q, ch :| q in ws[j - 1].procs && ws[j] == Next(cfg, ws[j - 1], q, ch);
      MismatchStep(cfg, ws[j - 1], p, q, ch);
    }
  }

  lemma Apart(root: string, a: string, x: string, b: string, y: string)
    requires |a| == |b|
    ensures root + "/" + a + "/" + x == root + "/" + b + "/" + y <==> a == b && x == y
  {
    var s, t := root + "/" + a + "/" + x, root + "/" + b + "/" + y;
    var n := |root| + 1;
    assert s[n..n + |a|] == a && t[n..n + |a|] == b;
    assert s[n + |a| + 1..] == x && t[n + |a| + 1..] == y;
  }

  /** When two assets share a place in the store: the same name and the same first 16 digits, no less and no more. */
  lemma SharedPathCollides(cfg: Config, a: Asset, b: Asset)
    requires cfg.store.Some? && |a.sha256| == 64 && |b.sha256| == 64
    ensures SharedPath(cfg, a) == SharedPath(cfg, b) <==> a.name == b.name && a.sha256[..16] == b.sha256[..16]
  {
    Apart(cfg.store.value, a.sha256[..16], a.name, b.sha256[..16], b.name);
  }
}
