/** The staleness check and the regenerate-or-skip decision, with the
    filesystem as a snapshot and the writes as an emitted list of actions. */
module Generator {
  import opened Base
  import opened Paths
  import opened OrderedMaps
  import opened Catalog
  import opened Packs
  import opened ServerBundle

  /** What the generator observes: the files the component globs list, the
      files that exist with their modification times in whole seconds, and
      the directories that exist. */
  datatype Snapshot = Snapshot(sources: seq<SourceFile>, files: map<Path, int>, dirs: set<Path>)

  /** The files the staleness check covers: the common files, then the client files. */
  function TrackedFiles(src: seq<SourceFile>): Result<seq<SourceFile>> {
    var client :- ClientComponents(src);
    Ok(Values(CommonComponents(src)) + Values(client))
  }

  /** `find_most_recent_mtime(...).to_i`; 0 for no files. */
  function MaxMtime(fs: seq<SourceFile>): (r: int)
    ensures forall i :: 0 <= i < |fs| ==> fs[i].mtime <= r
    ensures |fs| > 0 ==> exists i :: 0 <= i < |fs| && fs[i].mtime == r
    ensures |fs| == 0 ==> r == 0
  {
    if |fs| == 0 then 0
    else if |fs| == 1 then fs[0].mtime
    else
      var rest := MaxMtime(fs[1..]);
      assert forall i :: 1 <= i < |fs| ==> fs[i] == fs[1..][i - 1];
      if fs[0].mtime >= rest then fs[0].mtime else rest
  }

  /** The pack of `f` is missing or older than `newest`. */
  predicate PackOutdated(cfg: Config, files: map<Path, int>, f: SourceFile, newest: int) {
    var p := PackPath(cfg, f.path);
    p !in files || files[p] < newest
  }

  /** The `any?` over the tracked files. */
  function AnyOutdated(cfg: Config, files: map<Path, int>, fs: seq<SourceFile>, newest: int): (b: bool)
    ensures b <==> exists i :: 0 <= i < |fs| && PackOutdated(cfg, files, fs[i], newest)
  {
    if |fs| == 0 then false
    else if PackOutdated(cfg, files, fs[0], newest) then true
    else
      var b := AnyOutdated(cfg, files, fs[1..], newest);
      assert forall i :: 1 <= i < |fs| ==> fs[i] == fs[1..][i - 1];
      b
  }

  /** `stale_or_missing_packs?`: some tracked file's pack is missing or older
      than the newest tracked file; it raises when the client lookup does. */
  function StaleOrMissing(cfg: Config, snap: Snapshot): (r: Result<bool>)
    ensures r.Err? <==> ClientComponents(snap.sources).Err?
    ensures r.Err? ==> r.error == ClientComponents(snap.sources).error
    ensures r.Ok? ==> (r.value <==>
      var fs := TrackedFiles(snap.sources).value;
      exists i :: 0 <= i < |fs| && PackOutdated(cfg, snap.files, fs[i], MaxMtime(fs)))
  {
    var fs :- TrackedFiles(snap.sources);
    Ok(AnyOutdated(cfg, snap.files, fs, MaxMtime(fs)))
  }

  /** What the generator does to the filesystem, in order. */
  datatype Action =
    | PrependImport(entry: Path, rel: string)
    | CleanDir(dir: Path)
    | WritePack(path: Path, content: string)
    | WriteBundle(path: Path, content: string)

  /** The actions of a run, and the error that ended it, if any. */
  datatype Outcome = Outcome(actions: seq<Action>, error: Option<GenError>)

  /** `add_generated_pack_to_server_bundle`, which does nothing when the
      generated bundle is itself the entry. */
  function PrependStep(cfg: Config): (r: seq<Action>)
    ensures |r| == if cfg.bundleIsEntrypoint then 0 else 1
    ensures |r| == 1 ==> r[0].PrependImport? && r[0].entry == Entrypoint(cfg)
  {
    if cfg.bundleIsEntrypoint then [] else [PrependImport(Entrypoint(cfg), BundleRelPath(cfg))]
  }

  /** `create_pack` for each entry of `m`, in order. */
  function PackWrites(cfg: Config, m: Components): (r: seq<Action>)
    ensures |r| == |m|
    ensures forall i :: 0 <= i < |m| ==>
      r[i] == WritePack(PackPath(cfg, m[i].1.path), PackContent(cfg, m[i].1))
  {
    seq(|m|, i requires 0 <= i < |m| => WritePack(PackPath(cfg, m[i].1.path), PackContent(cfg, m[i].1)))
  }

  /** `server_bundle_js_file.present?`. */
  predicate BundleConfigured(cfg: Config) {
    |cfg.serverBundleFile| > 0
  }

  /** The writes of the client packs, once the client lookup has not raised. */
  function ClientWrites(cfg: Config, src: seq<SourceFile>): Result<seq<Action>> {
    var client :- ClientComponents(src);
    Ok(PackWrites(cfg, client))
  }

  /** `create_server_pack` when a server bundle is configured: the bundle
      write followed by a second prepend, unless building the text raised. */
  function BundleWrites(cfg: Config, src: seq<SourceFile>): (r: Option<Result<seq<Action>>>)
    ensures r.Some? <==> BundleConfigured(cfg)
    ensures r.Some? && r.value.Ok? ==>
      |r.value.value| > 0 && r.value.value[0].WriteBundle? && r.value.value[0].path == GeneratedBundlePath(cfg)
  {
    if !BundleConfigured(cfg) then None
    else match GeneratedServerPackContent(cfg, src)
      case Err(e) => Some(Err(e))
      case Ok(text) => Some(Ok([WriteBundle(GeneratedBundlePath(cfg), text)] + PrependStep(cfg)))
  }

  /** The order of `generate_packs`: the common writes, then the client
      writes or the error that stopped them, then the bundle writes, if any,
      or the error that stopped them. */
  function Sequence(common: seq<Action>, client: Result<seq<Action>>,
                    bundle: Option<Result<seq<Action>>>): Outcome {
    match client
    case Err(e) => Outcome(common, Some(e))
    case Ok(cw) =>
      match bundle
      case None => Outcome(common + cw, None)
      case Some(Err(e)) => Outcome(common + cw, Some(e))
      case Some(Ok(bw)) => Outcome(common + cw + bw, None)
  }

  /** The common packs come first whatever happens later, and a run stops
      with an error exactly when one of the lookups it makes raises. */
  lemma SequenceShape(common: seq<Action>, client: Result<seq<Action>>,
                      bundle: Option<Result<seq<Action>>>)
    ensures |common| <= |Sequence(common, client, bundle).actions|
    ensures Sequence(common, client, bundle).actions[..|common|] == common
    ensures Sequence(common, client, bundle).error.Some? <==>
      client.Err? || (bundle.Some? && bundle.value.Err?)
  {
  }

  /** `generate_packs`: it writes the common packs before anything can
      raise, and raises exactly when the client lookup does or, with a
      bundle configured, when the bundle text cannot be built. */
  function GeneratePacks(cfg: Config, src: seq<SourceFile>): (r: Outcome)
    ensures |CommonComponents(src)| <= |r.actions|
    ensures r.actions[..|CommonComponents(src)|] == PackWrites(cfg, CommonComponents(src))
    ensures r.error.Some? <==>
      ClientComponents(src).Err? || (BundleConfigured(cfg) && GeneratedServerPackContent(cfg, src).Err?)
  {
    var common := PackWrites(cfg, CommonComponents(src));
    var client := ClientWrites(cfg, src);
    var bundle := BundleWrites(cfg, src);
    SequenceShape(common, client, bundle);
    ClientWritesOk(cfg, src);
    BundleWritesOk(cfg, src);
    Sequence(common, client, bundle)
  }

  /** `File.exist?`: a file or a directory is at `p`. */
  predicate Exists(snap: Snapshot, p: Path) {
    p in snap.files || p in snap.dirs
  }

  /** The packs directory exists, the generated bundle exists and nothing is
      stale, tested left to right: the staleness check runs, and may raise,
      only when both exist. */
  function UpToDate(cfg: Config, snap: Snapshot): (r: Result<bool>)
    ensures r.Err? ==>
      && PacksDir(cfg) in snap.dirs && Exists(snap, GeneratedBundlePath(cfg))
      && ClientComponents(snap.sources).Err? && r.error == ClientComponents(snap.sources).error
    ensures r == Ok(true) ==>
      && PacksDir(cfg) in snap.dirs && Exists(snap, GeneratedBundlePath(cfg))
      && ClientComponents(snap.sources).Ok?
      && PacksNoOlder(cfg, snap.files, TrackedFiles(snap.sources).value)
  {
    if PacksDir(cfg) !in snap.dirs || !Exists(snap, GeneratedBundlePath(cfg)) then Ok(false)
    else match StaleOrMissing(cfg, snap)
      case Err(e) => Err(e)
      case Ok(stale) =>
        NotOutdatedMeans(cfg, snap.files, TrackedFiles(snap.sources).value);
        Ok(!stale)
  }

  /** Every file of `fs` has its pack, and that pack is no older than any
      file of `fs`. */
  predicate PacksNoOlder(cfg: Config, files: map<Path, int>, fs: seq<SourceFile>) {
    forall j :: 0 <= j < |fs| ==>
      && PackPath(cfg, fs[j].path) in files
      && forall k :: 0 <= k < |fs| ==> fs[k].mtime <= files[PackPath(cfg, fs[j].path)]
  }

  lemma NotOutdatedMeans(cfg: Config, files: map<Path, int>, fs: seq<SourceFile>)
    ensures (!exists i :: 0 <= i < |fs| && PackOutdated(cfg, files, fs[i], MaxMtime(fs))) ==>
      PacksNoOlder(cfg, files, fs)
  {
  }

  /** The decision of `generate_packs_if_stale` once the feature is on: the
      prepend always, then nothing, or the error of the check, or a wipe of
      the packs directory followed by the run. */
  function Decide(pre: seq<Action>, dir: Path, upToDate: Result<bool>, run: Outcome): Outcome {
    match upToDate
    case Err(e) => Outcome(pre, Some(e))
    case Ok(current) =>
      if current then Outcome(pre, None)
      else Outcome(pre + [CleanDir(dir)] + run.actions, run.error)
  }

  /** The prepend always comes first, and a decision ends in an error only
      when the check or the run it starts raises. */
  lemma DecideShape(pre: seq<Action>, dir: Path, u: Result<bool>, run: Outcome)
    ensures |pre| <= |Decide(pre, dir, u, run).actions|
    ensures Decide(pre, dir, u, run).actions[..|pre|] == pre
    ensures Decide(pre, dir, u, run).error.Some? ==>
      || (u.Err? && Decide(pre, dir, u, run).error.value == u.error)
      || (u == Ok(false) && Decide(pre, dir, u, run).error == run.error)
  {
  }

  /** `generate_packs_if_stale`: nothing when the feature is off; otherwise
      the prepend first, and an error only from the staleness check or from
      a regeneration. */
  function GeneratePacksIfStale(cfg: Config, snap: Snapshot): (r: Outcome)
    ensures !cfg.autoLoadBundle ==> r == Outcome([], None)
    ensures cfg.autoLoadBundle ==>
      |PrependStep(cfg)| <= |r.actions| && r.actions[..|PrependStep(cfg)|] == PrependStep(cfg)
    ensures r.error.Some? ==>
      || (UpToDate(cfg, snap).Err? && r.error.value == UpToDate(cfg, snap).error)
      || (UpToDate(cfg, snap) == Ok(false) && r.error == GeneratePacks(cfg, snap.sources).error)
  {
    if !cfg.autoLoadBundle then Outcome([], None)
    else
      var u := UpToDate(cfg, snap);
      var run := GeneratePacks(cfg, snap.sources);
      DecideShape(PrependStep(cfg), PacksDir(cfg), u, run);
      Decide(PrependStep(cfg), PacksDir(cfg), u, run)
  }

  /** A run regenerates when it wipes the packs directory. */
  predicate Regenerates(o: Outcome) {
    exists i :: 0 <= i < |o.actions| && o.actions[i].CleanDir?
  }

  predicate NoClean(acts: seq<Action>) {
    forall i :: 0 <= i < |acts| ==> !acts[i].CleanDir?
  }

  /** At most one prepend wipes nothing. */
  lemma PrependsOnly(pre: seq<Action>)
    requires |pre| <= 1 && (|pre| == 1 ==> pre[0].PrependImport?)
    ensures NoClean(pre)
    ensures forall i :: 0 <= i < |pre| ==> pre[i].PrependImport?
  {
  }

  // ---------------------------------------------------------------------
  // Decision and order

  lemma DecideRegenerates(pre: seq<Action>, dir: Path, u: Result<bool>, run: Outcome)
    requires NoClean(pre)
    ensures Regenerates(Decide(pre, dir, u, run)) <==> u == Ok(false)
  {
    if u == Ok(false) {
      assert Decide(pre, dir, u, run).actions[|pre|].CleanDir?;
    }
  }

  /** Property: a run regenerates exactly when the feature is on and the
      packs directory is missing, the bundle is missing, or the packs are
      stale; a staleness check that raises stops the run before any write. */
  lemma RegenerationDecision(cfg: Config, snap: Snapshot)
    ensures Regenerates(GeneratePacksIfStale(cfg, snap)) <==>
      && cfg.autoLoadBundle
      && (|| PacksDir(cfg) !in snap.dirs
          || !Exists(snap, GeneratedBundlePath(cfg))
          || StaleOrMissing(cfg, snap) == Ok(true))
    ensures cfg.autoLoadBundle && UpToDate(cfg, snap).Err? ==>
      GeneratePacksIfStale(cfg, snap) == Outcome(PrependStep(cfg), Some(UpToDate(cfg, snap).error))
  {
    if cfg.autoLoadBundle {
      PrependsOnly(PrependStep(cfg));
      DecideRegenerates(PrependStep(cfg), PacksDir(cfg), UpToDate(cfg, snap), GeneratePacks(cfg, snap.sources));
      UpToDateFalse(cfg, snap);
    }
  }

  lemma UpToDateFalse(cfg: Config, snap: Snapshot)
    ensures UpToDate(cfg, snap) == Ok(false) <==>
      || PacksDir(cfg) !in snap.dirs
      || !Exists(snap, GeneratedBundlePath(cfg))
      || StaleOrMissing(cfg, snap) == Ok(true)
  {
    var here := PacksDir(cfg) in snap.dirs && Exists(snap, GeneratedBundlePath(cfg));
    if here {
      assert UpToDate(cfg, snap) == match StaleOrMissing(cfg, snap)
        case Err(e) => Err(e) case Ok(stale) => Ok(!stale);
    }
  }

  /** A run of `generate_packs` that meets no error performs every step. */
  lemma SequenceCompletes(common: seq<Action>, client: Result<seq<Action>>,
                          bundle: Option<Result<seq<Action>>>)
    requires Sequence(common, client, bundle).error.None?
    ensures client.Ok? && (bundle.Some? ==> bundle.value.Ok?)
    ensures Sequence(common, client, bundle).actions ==
      common + client.value + (if bundle.Some? then bundle.value.value else [])
  {
  }

  /** A regeneration performs the prepend, the wipe and then the run. */
  lemma DecideRegeneration(pre: seq<Action>, dir: Path, run: Outcome)
    ensures Decide(pre, dir, Ok(false), run) == Outcome(pre + [CleanDir(dir)] + run.actions, run.error)
  {
  }

  /** Property: a regeneration that meets no error wipes the packs directory,
      writes the common packs, then the client packs, then, if one is
      configured, the server bundle and the second prepend. */
  lemma WriteOrder(cfg: Config, snap: Snapshot)
    requires cfg.autoLoadBundle && UpToDate(cfg, snap) == Ok(false)
    requires GeneratePacksIfStale(cfg, snap).error.None?
    ensures ClientComponents(snap.sources).Ok?
    ensures BundleConfigured(cfg) ==> GeneratedServerPackContent(cfg, snap.sources).Ok?
    ensures GeneratePacksIfStale(cfg, snap).actions ==
      PrependStep(cfg) + [CleanDir(PacksDir(cfg))]
      + PackWrites(cfg, CommonComponents(snap.sources))
      + PackWrites(cfg, ClientComponents(snap.sources).value)
      + (if BundleConfigured(cfg) then
           [WriteBundle(GeneratedBundlePath(cfg), GeneratedServerPackContent(cfg, snap.sources).value)]
           + PrependStep(cfg)
         else [])
  {
    var src := snap.sources;
    var common := PackWrites(cfg, CommonComponents(src));
    var cw := ClientWrites(cfg, src);
    var bw := BundleWrites(cfg, src);
    var run := GeneratePacks(cfg, src);
    assert run == Sequence(common, cw, bw);
    DecideRegeneration(PrependStep(cfg), PacksDir(cfg), run);
    assert GeneratePacksIfStale(cfg, snap) == Outcome(PrependStep(cfg) + [CleanDir(PacksDir(cfg))] + run.actions, run.error);
    SequenceCompletes(common, cw, bw);
    ClientWritesOk(cfg, src);
    BundleWritesOk(cfg, src);
    var tail := if bw.Some? then bw.value.value else [];
    assert run.actions == common + cw.value + tail;
    var pre := PrependStep(cfg) + [CleanDir(PacksDir(cfg))];
    Regroup(pre, common, cw.value, tail);
  }

  lemma Regroup(a: seq<Action>, b: seq<Action>, c: seq<Action>, d: seq<Action>)
    ensures a + (b + c + d) == a + b + c + d
  {
  }

  lemma ClientWritesOk(cfg: Config, src: seq<SourceFile>)
    ensures ClientWrites(cfg, src).Ok? <==> ClientComponents(src).Ok?
    ensures ClientWrites(cfg, src).Ok? ==>
      ClientWrites(cfg, src).value == PackWrites(cfg, ClientComponents(src).value)
  {
  }

  lemma BundleWritesOk(cfg: Config, src: seq<SourceFile>)
    ensures BundleWrites(cfg, src).Some? <==> BundleConfigured(cfg)
    ensures BundleWrites(cfg, src).Some? ==>
      (BundleWrites(cfg, src).value.Ok? <==> GeneratedServerPackContent(cfg, src).Ok?)
    ensures BundleWrites(cfg, src).Some? && BundleWrites(cfg, src).value.Ok? ==>
      BundleWrites(cfg, src).value.value ==
        [WriteBundle(GeneratedBundlePath(cfg), GeneratedServerPackContent(cfg, src).value)] + PrependStep(cfg)
  {
  }

  /** Property: when the packs directory is missing, a client file that
      overrides a common one is caught only after the common packs are
      written; when everything exists, the staleness check catches it before
      any write. */
  lemma PartialWrites(cfg: Config, snap: Snapshot)
    requires cfg.autoLoadBundle && Overlap(snap.sources, Client, Common)
    ensures PacksDir(cfg) !in snap.dirs ==>
      && GeneratePacksIfStale(cfg, snap).actions ==
           PrependStep(cfg) + [CleanDir(PacksDir(cfg))] + PackWrites(cfg, CommonComponents(snap.sources))
      && GeneratePacksIfStale(cfg, snap).error.Some?
      && GeneratePacksIfStale(cfg, snap).error.value.ClientOverridesCommon?
    ensures !Exists(snap, GeneratedBundlePath(cfg)) ==>
      && GeneratePacksIfStale(cfg, snap).actions ==
           PrependStep(cfg) + [CleanDir(PacksDir(cfg))] + PackWrites(cfg, CommonComponents(snap.sources))
      && GeneratePacksIfStale(cfg, snap).error.Some?
      && GeneratePacksIfStale(cfg, snap).error.value.ClientOverridesCommon?
    ensures PacksDir(cfg) in snap.dirs && Exists(snap, GeneratedBundlePath(cfg)) ==>
      && GeneratePacksIfStale(cfg, snap).actions == PrependStep(cfg)
      && GeneratePacksIfStale(cfg, snap).error.Some?
      && GeneratePacksIfStale(cfg, snap).error.value.ClientOverridesCommon?
  {
    ClientValidation(snap.sources);
  }

  // ---------------------------------------------------------------------
  // Staleness

  /** Property: with no common and no client file nothing is stale. */
  lemma NothingTrackedIsFresh(cfg: Config, snap: Snapshot)
    requires forall i :: 0 <= i < |snap.sources| ==>
      !InCategory(snap.sources[i].path, Common) && !InCategory(snap.sources[i].path, Client)
    ensures StaleOrMissing(cfg, snap) == Ok(false)
  {
    var src := snap.sources;
    ClientValidation(src);
    EmptyCategory(src, Common);
    EmptyCategory(src, Client);
  }

  lemma EmptyCategory(src: seq<SourceFile>, c: Category)
    requires forall i :: 0 <= i < |src| ==> !InCategory(src[i].path, c)
    ensures CategoryMap(src, c) == []
  {
  }

  /** A file outside category `c`, wherever it sits in the listing, changes
      nothing in that category's hash. */
  lemma UntrackedFileChangesNothing(a: seq<SourceFile>, f: SourceFile, b: seq<SourceFile>, c: Category)
    requires !InCategory(f.path, c)
    ensures CategoryMap(a + [f] + b, c) == CategoryMap(a + b, c)
  {
    var p := (g: SourceFile) => InCategory(g.path, c);
    var af := a + [f];
    FilterConcat(af, b, p);
    FilterConcat(a, [f], p);
    FilterConcat(a, b, p);
    assert Filter([f], p) == [];
    assert Filter(af, p) == Filter(a, p);
    assert CategoryFiles(af + b, c) == CategoryFiles(a + b, c);
  }

  /** Property: server-only files play no part in the staleness check,
      wherever the listing puts them. */
  lemma ServerOnlyFilesIgnored(cfg: Config, snap: Snapshot, a: seq<SourceFile>, f: SourceFile, b: seq<SourceFile>)
    requires InCategory(f.path, Server) && !InCategory(f.path, Client)
    requires snap.sources == a + b
    ensures StaleOrMissing(cfg, snap.(sources := a + [f] + b)) == StaleOrMissing(cfg, snap)
  {
    Naming.ClientOrServerIsNotCommon(f.path);
    UntrackedFileChangesNothing(a, f, b, Common);
    UntrackedFileChangesNothing(a, f, b, Client);
  }

  // ---------------------------------------------------------------------
  // Applying a run to the snapshot

  /** `d` and every directory above it: what `mkdir_p` leaves in place. */
  function Ancestry(d: Path): (r: set<Path>)
    ensures d in r
    ensures forall x :: x in r <==> Below(x, d)
  {
    assert d[..|d|] == d;
    set k | 0 <= k <= |d| :: d[..k]
  }

  /** The effect of one action at time `now`. Prepending changes only the
      host entry's text, which the snapshot does not track. */
  function Step(s: Snapshot, a: Action, now: int): Snapshot {
    match a
    case PrependImport(_, _) => s
    case CleanDir(d) =>
      s.(files := map p | p in s.files && !Below(d, p) :: s.files[p],
         dirs := (set x | x in s.dirs && !Below(d, x)) + Ancestry(d))
    case WritePack(p, _) => s.(files := s.files[p := now])
    case WriteBundle(p, _) => s.(files := s.files[p := now])
  }

  function Apply(s: Snapshot, acts: seq<Action>, now: int): Snapshot
    decreases |acts|
  {
    if |acts| == 0 then s else Apply(Step(s, acts[0], now), acts[1..], now)
  }

  lemma {:induction false} ApplyConcat(s: Snapshot, a: seq<Action>, b: seq<Action>, now: int)
    ensures Apply(s, a + b, now) == Apply(Apply(s, a, now), b, now)
    decreases |a|
  {
    if |a| == 0 {
      assert a + b == b;
    } else {
      assert (a + b)[0] == a[0];
      assert (a + b)[1..] == a[1..] + b;
      ApplyConcat(Step(s, a[0], now), a[1..], b, now);
    }
  }

  /** Without a wipe, what was written at `now` stays, and so do the
      directories and the sources. */
  lemma {:induction false} ApplyKeeps(s: Snapshot, acts: seq<Action>, now: int, p: Path)
    requires NoClean(acts)
    ensures Apply(s, acts, now).sources == s.sources
    ensures Apply(s, acts, now).dirs == s.dirs
    ensures p in s.files && s.files[p] == now ==>
      p in Apply(s, acts, now).files && Apply(s, acts, now).files[p] == now
    decreases |acts|
  {
    if |acts| > 0 {
      ApplyKeeps(Step(s, acts[0], now), acts[1..], now, p);
    }
  }

  /** Without a wipe, every written path ends up written at `now`. */
  lemma {:induction false} ApplyWrites(s: Snapshot, acts: seq<Action>, now: int, i: nat)
    requires NoClean(acts) && i < |acts| && (acts[i].WritePack? || acts[i].WriteBundle?)
    ensures acts[i].path in Apply(s, acts, now).files
    ensures Apply(s, acts, now).files[acts[i].path] == now
    decreases |acts|
  {
    var t := Step(s, acts[0], now);
    if i == 0 {
      ApplyKeeps(t, acts[1..], now, acts[0].path);
    } else {
      ApplyWrites(t, acts[1..], now, i - 1);
    }
  }

  /** `a` writes the file `q` or creates the directory `q`. */
  predicate Creates(a: Action, q: Path) {
    match a
    case PrependImport(_, _) => false
    case CleanDir(d) => Below(q, d)
    case WritePack(p, _) => p == q
    case WriteBundle(p, _) => p == q
  }

  /** No action of `acts` creates `q`. */
  predicate Avoids(acts: seq<Action>, q: Path) {
    forall i :: 0 <= i < |acts| ==> !Creates(acts[i], q)
  }

  /** A path no action creates exists afterwards only if it existed before. */
  lemma {:induction false} ApplyCreatesOnlyWritten(s: Snapshot, acts: seq<Action>, now: int, q: Path)
    requires Avoids(acts, q)
    ensures q in Apply(s, acts, now).files ==> q in s.files
    ensures q in Apply(s, acts, now).dirs ==> q in s.dirs
    decreases |acts|
  {
    if |acts| > 0 {
      ApplyCreatesOnlyWritten(Step(s, acts[0], now), acts[1..], now, q);
    }
  }

  /** After a wipe of `dir`, the writes that follow all land, whatever came
      before, and `dir` and every directory above it exist. */
  lemma WipeThenWrite(s: Snapshot, pre: seq<Action>, dir: Path, run: seq<Action>, now: int)
    requires NoClean(pre) && NoClean(run)
    ensures var after := Apply(s, pre + [CleanDir(dir)] + run, now);
      && after.sources == s.sources
      && dir in after.dirs
      && (forall x :: Below(x, dir) ==> x in after.dirs)
      && forall i :: (0 <= i < |run| && (run[i].WritePack? || run[i].WriteBundle?)) ==>
           run[i].path in after.files && after.files[run[i].path] == now
  {
    var head := pre + [CleanDir(dir)];
    ApplyConcat(s, head, run, now);
    ApplyConcat(s, pre, [CleanDir(dir)], now);
    ApplyKeeps(s, pre, now, []);
    var mid := Apply(s, head, now);
    assert mid.sources == s.sources && Ancestry(dir) <= mid.dirs;
    ApplyKeeps(mid, run, now, []);
    forall i | 0 <= i < |run| && (run[i].WritePack? || run[i].WriteBundle?)
      ensures run[i].path in Apply(mid, run, now).files && Apply(mid, run, now).files[run[i].path] == now
    {
      ApplyWrites(mid, run, now, i);
    }
  }

  /** `generate_packs` never wipes. */
  lemma RunHasNoClean(cfg: Config, src: seq<SourceFile>)
    ensures NoClean(GeneratePacks(cfg, src).actions)
  {
    var common := PackWrites(cfg, CommonComponents(src));
    var cw := ClientWrites(cfg, src);
    var bw := BundleWrites(cfg, src);
    assert GeneratePacks(cfg, src) == Sequence(common, cw, bw);
    ClientWritesOk(cfg, src);
    PackWritesNoClean(cfg, CommonComponents(src));
    if cw.Ok? {
      PackWritesNoClean(cfg, ClientComponents(src).value);
    }
    BundleWritesNoClean(cfg, src);
    SequenceNoClean(common, cw, bw);
  }

  lemma BundleWritesNoClean(cfg: Config, src: seq<SourceFile>)
    ensures BundleWrites(cfg, src).Some? && BundleWrites(cfg, src).value.Ok? ==>
      NoClean(BundleWrites(cfg, src).value.value)
  {
    if BundleWrites(cfg, src).Some? && BundleWrites(cfg, src).value.Ok? {
      var acts := BundleWrites(cfg, src).value.value;
      assert acts[0].WriteBundle? && acts[1..] == PrependStep(cfg);
      PrependsOnly(PrependStep(cfg));
      TwoNoClean(acts[0], acts[1..]);
      assert acts == [acts[0]] + acts[1..];
    }
  }

  lemma TwoNoClean(a: Action, rest: seq<Action>)
    requires !a.CleanDir? && NoClean(rest)
    ensures NoClean([a] + rest)
  {
    assert forall i :: 1 <= i < |[a] + rest| ==> ([a] + rest)[i] == rest[i - 1];
  }

  lemma PackWritesNoClean(cfg: Config, m: Components)
    ensures NoClean(PackWrites(cfg, m))
  {
  }

  lemma SequenceNoClean(common: seq<Action>, client: Result<seq<Action>>,
                        bundle: Option<Result<seq<Action>>>)
    requires NoClean(common) && (client.Ok? ==> NoClean(client.value))
    requires bundle.Some? && bundle.value.Ok? ==> NoClean(bundle.value.value)
    ensures NoClean(Sequence(common, client, bundle).actions)
  {
  }

  /** Property: after the wipe, the regeneration's writes all land and the
      packs directory exists again. */
  lemma RegenerationLands(cfg: Config, snap: Snapshot, now: int)
    requires cfg.autoLoadBundle && UpToDate(cfg, snap) == Ok(false)
    ensures var after := Apply(snap, GeneratePacksIfStale(cfg, snap).actions, now);
      && after.sources == snap.sources
      && PacksDir(cfg) in after.dirs
      && forall i :: (0 <= i < |GeneratePacks(cfg, snap.sources).actions| &&
           (GeneratePacks(cfg, snap.sources).actions[i].WritePack? ||
            GeneratePacks(cfg, snap.sources).actions[i].WriteBundle?)) ==>
           GeneratePacks(cfg, snap.sources).actions[i].path in after.files &&
           after.files[GeneratePacks(cfg, snap.sources).actions[i].path] == now
  {
    var run := GeneratePacks(cfg, snap.sources);
    DecideRegeneration(PrependStep(cfg), PacksDir(cfg), run);
    RunHasNoClean(cfg, snap.sources);
    PrependsOnly(PrependStep(cfg));
    WipeThenWrite(snap, PrependStep(cfg), PacksDir(cfg), run.actions, now);
  }

  // ---------------------------------------------------------------------
  // A second run

  /** The prepend alone leaves the snapshot as it was. */
  lemma PrependKeeps(s: Snapshot, cfg: Config, now: int)
    ensures Apply(s, PrependStep(cfg), now) == s
  {
    if !cfg.bundleIsEntrypoint {
      assert Apply(s, PrependStep(cfg), now) == Apply(s, [], now);
    }
  }

  /** The first `|fs|` actions write the packs of `fs`, in order. */
  predicate WritesPacksOf(cfg: Config, acts: seq<Action>, fs: seq<SourceFile>) {
    |fs| <= |acts| &&
    forall j :: 0 <= j < |fs| ==> acts[j].WritePack? && acts[j].path == PackPath(cfg, fs[j].path)
  }

  lemma PackWritesCover(cfg: Config, m: Components)
    ensures WritesPacksOf(cfg, PackWrites(cfg, m), Values(m))
  {
  }

  lemma CoverConcat(cfg: Config, a: seq<Action>, fa: seq<SourceFile>,
                    b: seq<Action>, fb: seq<SourceFile>, rest: seq<Action>)
    requires WritesPacksOf(cfg, a, fa) && |a| == |fa| && WritesPacksOf(cfg, b, fb)
    ensures WritesPacksOf(cfg, a + b + rest, fa + fb)
  {
    forall j | 0 <= j < |fa + fb|
      ensures (a + b + rest)[j].WritePack? && (a + b + rest)[j].path == PackPath(cfg, (fa + fb)[j].path)
    {
      if j < |fa| {
        assert (a + b + rest)[j] == a[j] && (fa + fb)[j] == fa[j];
      } else {
        assert (a + b + rest)[j] == b[j - |a|] && (fa + fb)[j] == fb[j - |fa|];
      }
    }
  }

  /** Once the client lookup succeeds, `generate_packs` writes the common
      packs and then the client packs before anything else. */
  lemma SequenceAfterClient(common: seq<Action>, client: Result<seq<Action>>,
                            bundle: Option<Result<seq<Action>>>)
    requires client.Ok?
    ensures Sequence(common, client, bundle).actions ==
      common + client.value + (if bundle.Some? && bundle.value.Ok? then bundle.value.value else [])
  {
  }

  /** Property: once the client lookup succeeds, the run starts by writing
      the pack of every tracked file, in the order the staleness check
      visits them. */
  lemma RunWritesTracked(cfg: Config, src: seq<SourceFile>)
    requires ClientComponents(src).Ok?
    ensures WritesPacksOf(cfg, GeneratePacks(cfg, src).actions, TrackedFiles(src).value)
  {
    var common := CommonComponents(src);
    var client := ClientComponents(src).value;
    var cw := ClientWrites(cfg, src);
    var bw := BundleWrites(cfg, src);
    assert GeneratePacks(cfg, src) == Sequence(PackWrites(cfg, common), cw, bw);
    ClientWritesOk(cfg, src);
    SequenceAfterClient(PackWrites(cfg, common), cw, bw);
    PackWritesCover(cfg, common);
    PackWritesCover(cfg, client);
    CoverConcat(cfg, PackWrites(cfg, common), Values(common), PackWrites(cfg, client), Values(client),
                if bw.Some? && bw.value.Ok? then bw.value.value else []);
  }

  /** Property: a configured run that meets no error writes the bundle. */
  lemma RunWritesBundle(cfg: Config, src: seq<SourceFile>)
    requires BundleConfigured(cfg) && GeneratePacks(cfg, src).error.None?
    ensures exists i ::
      && 0 <= i < |GeneratePacks(cfg, src).actions|
      && GeneratePacks(cfg, src).actions[i].WriteBundle?
      && GeneratePacks(cfg, src).actions[i].path == GeneratedBundlePath(cfg)
  {
    var common := PackWrites(cfg, CommonComponents(src));
    var cw := ClientWrites(cfg, src);
    var bw := BundleWrites(cfg, src);
    assert GeneratePacks(cfg, src) == Sequence(common, cw, bw);
    SequenceBundleFirst(common, cw, bw);
    var i := |common| + |cw.value|;
    assert GeneratePacks(cfg, src).actions[i] == bw.value.value[0];
  }

  /** A completed run's bundle steps come right after the client writes. */
  lemma SequenceBundleFirst(common: seq<Action>, client: Result<seq<Action>>,
                            bundle: Option<Result<seq<Action>>>)
    requires Sequence(common, client, bundle).error.None?
    requires bundle.Some? && bundle.value.Ok? && |bundle.value.value| > 0
    ensures client.Ok?
    ensures |common| + |client.value| < |Sequence(common, client, bundle).actions|
    ensures Sequence(common, client, bundle).actions[|common| + |client.value|] == bundle.value.value[0]
  {
  }

  predicate AllIn(fs: seq<SourceFile>, src: seq<SourceFile>) {
    forall j :: 0 <= j < |fs| ==> fs[j] in src
  }

  lemma ValuesIn(m: Components, src: seq<SourceFile>)
    requires forall i :: 0 <= i < |m| ==> m[i].1 in src
    ensures AllIn(Values(m), src)
  {
  }

  lemma AllInConcat(a: seq<SourceFile>, b: seq<SourceFile>, src: seq<SourceFile>)
    requires AllIn(a, src) && AllIn(b, src)
    ensures AllIn(a + b, src)
  {
    forall j | 0 <= j < |a + b|
      ensures (a + b)[j] in src
    {
      if j < |a| {
        assert (a + b)[j] == a[j];
      } else {
        assert (a + b)[j] == b[j - |a|];
      }
    }
  }

  /** The tracked files are source files. */
  lemma TrackedAreSources(src: seq<SourceFile>)
    requires ClientComponents(src).Ok?
    ensures AllIn(TrackedFiles(src).value, src)
  {
    ClientValidation(src);
    var common := CommonComponents(src);
    var client := ClientComponents(src).value;
    assert TrackedFiles(src).value == Values(common) + Values(client);
    ValuesIn(common, src);
    ValuesIn(client, src);
    AllInConcat(Values(common), Values(client), src);
  }

  /** No pack of `fs` is outdated when each was written at `now` and no
      file of `fs` is newer than `now`. */
  lemma NoneOutdated(cfg: Config, files: map<Path, int>, fs: seq<SourceFile>, now: int)
    requires forall j :: 0 <= j < |fs| ==> fs[j].mtime <= now
    requires forall j :: 0 <= j < |fs| ==>
      PackPath(cfg, fs[j].path) in files && files[PackPath(cfg, fs[j].path)] == now
    ensures !AnyOutdated(cfg, files, fs, MaxMtime(fs))
  {
    if |fs| > 0 {
      var i :| 0 <= i < |fs| && fs[i].mtime == MaxMtime(fs);
    }
  }

  /** Property: when every tracked file's pack was written at a time no
      source file is newer than, nothing is stale. */
  lemma FreshWhenWritten(cfg: Config, snap: Snapshot, now: int)
    requires ClientComponents(snap.sources).Ok?
    requires forall i :: 0 <= i < |snap.sources| ==> snap.sources[i].mtime <= now
    requires forall j :: 0 <= j < |TrackedFiles(snap.sources).value| ==>
      PackPath(cfg, TrackedFiles(snap.sources).value[j].path) in snap.files &&
      snap.files[PackPath(cfg, TrackedFiles(snap.sources).value[j].path)] == now
    ensures StaleOrMissing(cfg, snap) == Ok(false)
  {
    var fs := TrackedFiles(snap.sources).value;
    TrackedAreSources(snap.sources);
    NoMtimeAfter(fs, snap.sources, now);
    NoneOutdated(cfg, snap.files, fs, now);
  }

  lemma NoMtimeAfter(fs: seq<SourceFile>, src: seq<SourceFile>, now: int)
    requires AllIn(fs, src)
    requires forall i :: 0 <= i < |src| ==> src[i].mtime <= now
    ensures forall j :: 0 <= j < |fs| ==> fs[j].mtime <= now
  {
    forall j | 0 <= j < |fs|
      ensures fs[j].mtime <= now
    {
      var i :| 0 <= i < |src| && src[i] == fs[j];
    }
  }

  /** Property: a run that meets no error, with every source file no newer
      than `now`, leaves the files up to date, so a second run only prepends.
      This needs the bundle path to be written (a server bundle is
      configured) or to be recreated with the packs directory (it is that
      directory or lies above it). */
  lemma SecondRunSkips(cfg: Config, snap: Snapshot, now: int)
    requires cfg.autoLoadBundle
    requires BundleConfigured(cfg) || Below(GeneratedBundlePath(cfg), PacksDir(cfg))
    requires GeneratePacksIfStale(cfg, snap).error.None?
    requires forall i :: 0 <= i < |snap.sources| ==> snap.sources[i].mtime <= now
    ensures GeneratePacksIfStale(cfg, Apply(snap, GeneratePacksIfStale(cfg, snap).actions, now))
      == Outcome(PrependStep(cfg), None)
  {
    var pre := PrependStep(cfg);
    var dir := PacksDir(cfg);
    var run := GeneratePacks(cfg, snap.sources);
    var u := UpToDate(cfg, snap);
    assert GeneratePacksIfStale(cfg, snap) == Decide(pre, dir, u, run);
    DecideWithoutError(pre, dir, u, run);
    if u == Ok(true) {
      PrependKeeps(snap, cfg, now);
    } else {
      RegeneratedIsFresh(cfg, snap, now);
    }
  }

  /** Property: in entrypoint mode with no bundle file name, a first run on
      an empty tree wipes and regenerates, and the second run, finding the
      source entry directory recreated, does nothing. */
  lemma EntryDirectoryFirstAndSecondRun(now: int)
    ensures var cfg := Config(true, true, [], ["app", "packs"], false);
      var snap := Snapshot([], map[], {});
      && Regenerates(GeneratePacksIfStale(cfg, snap))
      && GeneratePacksIfStale(cfg, Apply(snap, GeneratePacksIfStale(cfg, snap).actions, now))
         == Outcome([], None)
  {
    var cfg := Config(true, true, [], ["app", "packs"], false);
    var snap := Snapshot([], map[], {});
    RegenerationDecision(cfg, snap);
    EntryDirectoryBundle(cfg);
    ClientValidation([]);
    EmptyCategory([], Common);
    EmptyCategory([], Client);
    assert ClientComponents([]) == Ok([]);
    SecondRunSkips(cfg, snap, now);
  }

  /** A decision that meets no error either skips or regenerates without error. */
  lemma DecideWithoutError(pre: seq<Action>, dir: Path, u: Result<bool>, run: Outcome)
    requires Decide(pre, dir, u, run).error.None?
    ensures u == Ok(true) || u == Ok(false)
    ensures u == Ok(true) ==> Decide(pre, dir, u, run) == Outcome(pre, None)
    ensures u == Ok(false) ==>
      run.error.None? && Decide(pre, dir, u, run).actions == pre + [CleanDir(dir)] + run.actions
  {
  }

  lemma RegeneratedIsFresh(cfg: Config, snap: Snapshot, now: int)
    requires cfg.autoLoadBundle
    requires BundleConfigured(cfg) || Below(GeneratedBundlePath(cfg), PacksDir(cfg))
    requires GeneratePacks(cfg, snap.sources).error.None?
    requires forall i :: 0 <= i < |snap.sources| ==> snap.sources[i].mtime <= now
    ensures var run := GeneratePacks(cfg, snap.sources).actions;
      GeneratePacksIfStale(cfg, Apply(snap, PrependStep(cfg) + [CleanDir(PacksDir(cfg))] + run, now))
        == Outcome(PrependStep(cfg), None)
  {
    var pre := PrependStep(cfg);
    var dir := PacksDir(cfg);
    var run := GeneratePacks(cfg, snap.sources).actions;
    var after := Apply(snap, pre + [CleanDir(dir)] + run, now);
    RunHasNoClean(cfg, snap.sources);
    PrependsOnly(pre);
    WipeThenWrite(snap, pre, dir, run, now);
    RunClientOk(cfg, snap.sources);
    RunWritesTracked(cfg, snap.sources);
    if BundleConfigured(cfg) {
      RunWritesBundle(cfg, snap.sources);
    }
    AfterIsFresh(cfg, snap, after, run, now);
    SkipsWhenPresent(cfg, after);
  }

  /** A run that meets no error got past the client lookup. */
  lemma RunClientOk(cfg: Config, src: seq<SourceFile>)
    requires GeneratePacks(cfg, src).error.None?
    ensures ClientComponents(src).Ok?
  {
    var common := PackWrites(cfg, CommonComponents(src));
    assert GeneratePacks(cfg, src) == Sequence(common, ClientWrites(cfg, src), BundleWrites(cfg, src));
    SequenceCompletes(common, ClientWrites(cfg, src), BundleWrites(cfg, src));
    ClientWritesOk(cfg, src);
  }

  /** With the packs directory and the bundle present and nothing stale,
      a run only prepends. */
  lemma SkipsWhenPresent(cfg: Config, s: Snapshot)
    requires cfg.autoLoadBundle
    requires PacksDir(cfg) in s.dirs && Exists(s, GeneratedBundlePath(cfg))
    requires StaleOrMissing(cfg, s) == Ok(false)
    ensures GeneratePacksIfStale(cfg, s) == Outcome(PrependStep(cfg), None)
  {
    assert UpToDate(cfg, s) == Ok(true);
  }

  lemma AfterIsFresh(cfg: Config, snap: Snapshot, after: Snapshot, run: seq<Action>, now: int)
    requires after.sources == snap.sources && ClientComponents(snap.sources).Ok?
    requires forall i :: 0 <= i < |snap.sources| ==> snap.sources[i].mtime <= now
    requires WritesPacksOf(cfg, run, TrackedFiles(snap.sources).value)
    requires forall i :: (0 <= i < |run| && (run[i].WritePack? || run[i].WriteBundle?)) ==>
      run[i].path in after.files && after.files[run[i].path] == now
    ensures StaleOrMissing(cfg, after) == Ok(false)
  {
    FreshWhenWritten(cfg, after, now);
  }

  /** Every action of `acts` writes a pack inside `dir`. */
  predicate WritesInside(dir: Path, acts: seq<Action>) {
    forall j :: 0 <= j < |acts| ==> acts[j].WritePack? && Below(dir, acts[j].path)
  }

  lemma PackWritesInDir(cfg: Config, m: Components)
    ensures WritesInside(PacksDir(cfg), PackWrites(cfg, m))
  {
    forall j | 0 <= j < |m|
      ensures Below(PacksDir(cfg), PackWrites(cfg, m)[j].path)
    {
      PackInPacksDir(cfg, m[j].1.path);
    }
  }

  lemma WritesInsideConcat(dir: Path, a: seq<Action>, b: seq<Action>)
    requires WritesInside(dir, a) && WritesInside(dir, b)
    ensures WritesInside(dir, a + b)
  {
    forall j | 0 <= j < |a + b|
      ensures (a + b)[j].WritePack? && Below(dir, (a + b)[j].path)
    {
      if j < |a| {
        assert (a + b)[j] == a[j];
      } else {
        assert (a + b)[j] == b[j - |a|];
      }
    }
  }

  /** Without a configured bundle, a run writes only packs. */
  lemma NoBundleWrite(cfg: Config, src: seq<SourceFile>)
    requires !BundleConfigured(cfg)
    ensures WritesInside(PacksDir(cfg), GeneratePacks(cfg, src).actions)
  {
    var common := PackWrites(cfg, CommonComponents(src));
    var cw := ClientWrites(cfg, src);
    var bw := BundleWrites(cfg, src);
    assert GeneratePacks(cfg, src) == Sequence(common, cw, bw);
    BundleWritesOk(cfg, src);
    ClientWritesOk(cfg, src);
    PackWritesInDir(cfg, CommonComponents(src));
    if cw.Ok? {
      PackWritesInDir(cfg, ClientComponents(src).value);
      WritesInsideConcat(PacksDir(cfg), common, cw.value);
      assert GeneratePacks(cfg, src).actions == common + cw.value;
    }
  }

  /** A prepend, a wipe of `dir`, then writes inside `dir` leave alone
      every path neither inside `dir` nor above it. */
  lemma RegenerationAvoids(pre: seq<Action>, dir: Path, run: seq<Action>, q: Path)
    requires forall i :: 0 <= i < |pre| ==> pre[i].PrependImport?
    requires WritesInside(dir, run) && !Below(dir, q) && !Below(q, dir)
    ensures Avoids(pre + [CleanDir(dir)] + run, q)
  {
    var acts := pre + [CleanDir(dir)] + run;
    var n := |pre| + 1;
    assert forall i :: 0 <= i < |pre| ==> acts[i] == pre[i];
    assert acts[|pre|] == CleanDir(dir);
    forall i | 0 <= i < |acts|
      ensures !Creates(acts[i], q)
    {
      if i >= n {
        assert acts[i] == run[i - n];
      }
    }
  }

  /** Property: with no server bundle configured and the generated bundle
      kept apart from the packs, nothing writes the bundle file, so when it
      is missing, as a file and as a directory, every run regenerates and
      leaves it missing. */
  lemma UnconfiguredBundleRegenerates(cfg: Config, snap: Snapshot, now: int)
    requires cfg.autoLoadBundle && !BundleConfigured(cfg)
    requires !cfg.bundleIsEntrypoint && |cfg.sourceEntry| > 0
    requires !Exists(snap, GeneratedBundlePath(cfg))
    ensures Regenerates(GeneratePacksIfStale(cfg, snap))
    ensures !Exists(Apply(snap, GeneratePacksIfStale(cfg, snap).actions, now), GeneratedBundlePath(cfg))
  {
    RegenerationDecision(cfg, snap);
    var run := GeneratePacks(cfg, snap.sources);
    DecideRegeneration(PrependStep(cfg), PacksDir(cfg), run);
    NoBundleWrite(cfg, snap.sources);
    BundleApartFromPacks(cfg, []);
    PrependsOnly(PrependStep(cfg));
    RegenerationAvoids(PrependStep(cfg), PacksDir(cfg), run.actions, GeneratedBundlePath(cfg));
    ApplyCreatesOnlyWritten(snap, GeneratePacksIfStale(cfg, snap).actions, now, GeneratedBundlePath(cfg));
  }
}
