/** The generated server bundle: its path, which components it registers
    and how, its text, and the import prepended to the host's server entry. */
module ServerBundle {
  import opened Base
  import opened Text
  import opened Paths
  import opened Naming
  import opened OrderedMaps
  import opened DirectiveScanner
  import opened Catalog
  import opened Packs

  /** `server_bundle_entrypoint`. */
  function Entrypoint(cfg: Config): Path {
    cfg.sourceEntry + cfg.serverBundleFile
  }

  /** `File.basename` of a printed path: what follows its last slash. */
  function LastPart(s: string): (r: string)
    ensures '/' !in r && |r| <= |s| && r == s[|s| - |r|..]
  {
    if |s| == 0 || s[|s| - 1] == '/' then ""
    else LastPart(s[..|s| - 1]) + [s[|s| - 1]]
  }

  lemma {:induction false} LastPartAfterSlash(x: string, b: string)
    requires '/' !in b
    ensures LastPart(x + "/" + b) == b
  {
    if |b| > 0 {
      var s := x + "/" + b;
      assert s[..|s| - 1] == x + "/" + b[..|b| - 1];
      LastPartAfterSlash(x, b[..|b| - 1]);
      assert b == b[..|b| - 1] + [b[|b| - 1]];
    } else {
      assert x + "/" + b == x + "/";
    }
  }

  /** The name of the generated bundle: the component name of the server
      entry's printed path with its first `.js` turned into `-generated.js`. */
  function GeneratedBundleName(cfg: Config): string {
    NameOf(LastPart(ReplaceFirst(RenderAbs(Entrypoint(cfg)), ".js", "-generated.js")))
  }

  /** `generated_server_bundle_file_path`: the server entry itself, or a
      `.js` file in the `generated` directory beside the source entry one. */
  function GeneratedBundlePath(cfg: Config): (r: Path)
    ensures cfg.bundleIsEntrypoint ==> r == Entrypoint(cfg)
    ensures !cfg.bundleIsEntrypoint ==>
      && |r| == |Parent(cfg.sourceEntry)| + 2
      && Below(Parent(cfg.sourceEntry) + ["generated"], r)
  {
    if cfg.bundleIsEntrypoint then Entrypoint(cfg)
    else FileIn(Parent(cfg.sourceEntry) + ["generated"], GeneratedBundleName(cfg) + ".js")
  }

  /** Property: when the first `.js` of the entry path is the extension of
      an entry named `n.js`, the generated bundle is `n-generated.js` in the
      `generated` directory beside the source entry directory. */
  lemma GeneratedBundleOfPlainEntry(cfg: Config, n: string)
    requires !cfg.bundleIsEntrypoint && |cfg.serverBundleFile| > 0
    requires Basename(Entrypoint(cfg)) == n + ".js" && |n| > 0 && DotFree(n) && '/' !in n
    requires forall i :: 0 <= i < |RenderAbs(Entrypoint(cfg))| - 3 ==>
      !At(RenderAbs(Entrypoint(cfg)), ".js", i)
    ensures GeneratedBundlePath(cfg) ==
      Parent(cfg.sourceEntry) + ["generated", n + "-generated" + ".js"]
  {
    BundleNameOfPlainEntry(Entrypoint(cfg), n);
    FileInSubdir(Parent(cfg.sourceEntry), "generated", GeneratedBundleName(cfg) + ".js");
  }

  /** The name chain of `GeneratedBundleName` for an entry named `n.js`,
      one function at a time. */
  lemma BundleNameOfPlainEntry(e: Path, n: string)
    requires |e| > 0 && Basename(e) == n + ".js" && |n| > 0 && DotFree(n) && '/' !in n
    requires forall i :: 0 <= i < |RenderAbs(e)| - 3 ==> !At(RenderAbs(e), ".js", i)
    ensures NameOf(LastPart(ReplaceFirst(RenderAbs(e), ".js", "-generated.js"))) == n + "-generated"
  {
    ReplacedPlainEntry(e, n);
    NoSlashInGenerated(n);
    LastPartAfterSlash(RenderAbs(Parent(e)), n + "-generated.js");
    GeneratedStemName(n);
  }

  /** `sub(".js", "-generated.js")` on the printed path of an entry named
      `n.js` whose only `.js` is its extension. */
  lemma ReplacedPlainEntry(e: Path, n: string)
    requires |e| > 0 && Basename(e) == n + ".js"
    requires forall i :: 0 <= i < |RenderAbs(e)| - 3 ==> !At(RenderAbs(e), ".js", i)
    ensures ReplaceFirst(RenderAbs(e), ".js", "-generated.js") ==
      RenderAbs(Parent(e)) + "/" + (n + "-generated.js")
  {
    var x := RenderAbs(Parent(e)) + "/";
    Regroup(x, n, ".js");
    Regroup(x, n, "-generated.js");
    ReplaceLastJs(RenderAbs(e), x + n);
  }

  lemma Regroup(x: string, n: string, ext: string)
    ensures x + (n + ext) == (x + n) + ext
  {
  }

  lemma NoSlashInGenerated(n: string)
    requires '/' !in n
    ensures '/' !in n + "-generated.js"
  {
    var s := "-generated.js";
    forall i | 0 <= i < |s|
      ensures s[i] != '/'
    {
    }
  }

  lemma GeneratedStemName(n: string)
    requires |n| > 0 && DotFree(n)
    ensures NameOf(n + "-generated.js") == n + "-generated"
  {
    var stem := n + "-generated";
    assert DotFree(stem) by {
      forall i | 0 <= i < |stem|
        ensures stem[i] != '.'
      {
        if i >= |n| {
          assert stem[i] == "-generated"[i - |n|];
        }
      }
    }
    assert n + "-generated.js" == stem + "." + "js";
    NameWithoutInfix(stem, "js");
  }

  lemma ReplaceLastJs(s: string, y: string)
    requires s == y + ".js"
    requires forall i :: 0 <= i < |s| - 3 ==> !At(s, ".js", i)
    ensures ReplaceFirst(s, ".js", "-generated.js") == y + "-generated.js"
  {
    assert s[|y|..] == ".js";
    IndexOfIs(s, ".js", 0, |y|);
    assert s[..|y|] == y && s[|y| + 3..] == [];
  }

  /** Property: a separate generated bundle is never one of the packs and
      never inside the packs directory, so cleaning that directory leaves it. */
  lemma BundleApartFromPacks(cfg: Config, p: Path)
    requires !cfg.bundleIsEntrypoint && |cfg.sourceEntry| > 0
    ensures GeneratedBundlePath(cfg) != PackPath(cfg, p)
    ensures !Below(PacksDir(cfg), GeneratedBundlePath(cfg))
    ensures !Below(GeneratedBundlePath(cfg), PacksDir(cfg))
  {
    SiblingGeneratedDir(cfg.sourceEntry, GeneratedBundleName(cfg));
    BelowSameLength(GeneratedBundlePath(cfg), PacksDir(cfg));
  }

  /** Property: in entrypoint mode with no bundle file name, the generated
      bundle path is the source entry directory, which lies above the packs
      directory. */
  lemma EntryDirectoryBundle(cfg: Config)
    requires cfg.bundleIsEntrypoint && |cfg.serverBundleFile| == 0
    ensures GeneratedBundlePath(cfg) == cfg.sourceEntry
    ensures Below(GeneratedBundlePath(cfg), PacksDir(cfg))
  {
    assert cfg.sourceEntry + cfg.serverBundleFile == cfg.sourceEntry;
  }

  lemma SiblingGeneratedDir(se: Path, name: string)
    requires |se| > 0
    ensures forall y :: FileIn(Parent(se) + ["generated"], name + ".js") != se + ["generated", y]
    ensures !Below(se + ["generated"], FileIn(Parent(se) + ["generated"], name + ".js"))
  {
    var b := FileIn(Parent(se) + ["generated"], name + ".js");
    var d := se + ["generated"];
    var x := name + ".js";
    assert |b| == |d|;
    assert x[|x| - 1] == 's';
    assert "generated"[8] == 'd';
    assert b[|b| - 1] != d[|d| - 1];
  }

  // ---------------------------------------------------------------------
  // Which components the bundle registers

  /** The components the bundle registers: the common ones whose name no
      server file takes, merged with the server ones; it raises what the
      server lookup raises. */
  function Registrations(src: seq<SourceFile>): (r: Result<Components>)
    ensures r.Ok? <==> ServerComponents(src).Ok?
    ensures r.Err? ==> r.error == ServerComponents(src).error
  {
    var server :- ServerComponents(src);
    Ok(Merge(DeleteKeys(CommonComponents(src), Keys(server)), server))
  }

  /** Property: no server file overrides a common one. Either the names
      clash, and the server lookup fails, or the bundle registers the common
      components followed by the server ones, under distinct names. */
  lemma RegistrationsAreCommonThenServer(src: seq<SourceFile>)
    ensures Registrations(src).Ok? <==> ServerComponents(src).Ok?
    ensures Registrations(src).Err? ==> Registrations(src).error == ServerComponents(src).error
    ensures Registrations(src).Ok? ==>
      && Registrations(src).value == CommonComponents(src) + CategoryMap(src, Server)
      && UniqueKeys(Registrations(src).value)
  {
    RegistrationsUnfold(src);
    if ServerComponents(src).Ok? {
      ServerValidation(src);
      FirstSharedOfCategories(src, Server, Common);
      var common := CommonComponents(src);
      var server := CategoryMap(src, Server);
      assert server == ServerComponents(src).value;
      var ks := Keys(server);
      assert forall j :: 0 <= j < |server| ==> server[j].0 !in Keys(common);
      NoSharedKeys(common, server);
      DeleteKeysAbsent(common, ks);
      DisjointConcat(common, server);
      MergeDisjoint(common, server);
    }
  }

  lemma RegistrationsUnfold(src: seq<SourceFile>)
    ensures ServerComponents(src).Err? ==> Registrations(src) == Err(ServerComponents(src).error)
    ensures ServerComponents(src).Ok? ==>
      var server := ServerComponents(src).value;
      Registrations(src) == Ok(Merge(DeleteKeys(CommonComponents(src), Keys(server)), server))
  {
  }

  /** `client_entrypoint?` of the file registered under `k`. */
  predicate RendersOnServer(cfg: Config, m: Components, k: string) {
    cfg.rscEnabled && Lookup(m, k).Some? && !IsClientEntrypoint(Lookup(m, k).value.text)
  }

  /** `server_components`: the names kept by the `delete_if`. */
  function ServerNames(cfg: Config, m: Components): seq<string> {
    Filter(Keys(m), k => RendersOnServer(cfg, m, k))
  }

  /** `client_components`: the remaining names (`keys - server_components`). */
  function ClientNames(cfg: Config, m: Components): seq<string> {
    var server := ServerNames(cfg, m);
    Filter(Keys(m), k => k !in server)
  }

  /** Property: the server and client name lists split the registered names,
      each keeping their order, and a name is a server name exactly when its
      file is a server component. */
  lemma NamesPartition(cfg: Config, m: Components)
    requires UniqueKeys(m)
    ensures multiset(ServerNames(cfg, m)) + multiset(ClientNames(cfg, m)) == multiset(Keys(m))
    ensures ClientNames(cfg, m) == Filter(Keys(m), k => !RendersOnServer(cfg, m, k))
    ensures forall i :: 0 <= i < |m| ==>
      (m[i].0 in ServerNames(cfg, m) <==> IsServerComponent(cfg, m[i].1))
  {
    var ks := Keys(m);
    var server := ServerNames(cfg, m);
    FilterCongruent(ks, k => k !in server, k => !RendersOnServer(cfg, m, k));
    FilterSplit(ks, k => RendersOnServer(cfg, m, k), k => !RendersOnServer(cfg, m, k));
    forall i | 0 <= i < |m|
      ensures m[i].0 in server <==> IsServerComponent(cfg, m[i].1)
    {
      LookupAt(m, i);
    }
  }

  /** Property: without server-component support every name is a client name. */
  lemma NoServerNamesWithoutSupport(cfg: Config, m: Components)
    requires !cfg.rscEnabled
    ensures ServerNames(cfg, m) == []
    ensures ClientNames(cfg, m) == Keys(m)
  {
    var ks := Keys(m);
    FilterNone(ks, k => RendersOnServer(cfg, m, k));
    FilterCongruent(ks, k => k !in ServerNames(cfg, m), k => true);
    FilterAll(ks);
  }

  lemma {:induction false} FilterAll(s: seq<string>)
    ensures Filter(s, k => true) == s
  {
    if |s| > 0 {
      FilterAll(s[1..]);
    }
  }

  // ---------------------------------------------------------------------
  // The bundle text

  /** One import per registered component. */
  function ImportLine(name: string, rel: string): string {
    "import " + name + " from '" + rel + "';"
  }

  /** The import lines of `m`, in its order, relative to the bundle. */
  function Imports(cfg: Config, m: Components): (r: seq<string>)
    ensures |r| == |m|
    ensures forall i :: 0 <= i < |m| ==>
      r[i] == ImportLine(m[i].0, RelativePathText(GeneratedBundlePath(cfg), m[i].1.path))
  {
    seq(|m|, i requires 0 <= i < |m| =>
      ImportLine(m[i].0, RelativePathText(GeneratedBundlePath(cfg), m[i].1.path)))
  }

  function BundleHeader(imports: seq<string>): string {
    "import " + ("ReactOnRails from 'react-on-rails';\n\n" + Join(imports, "\n") + "\n\n")
  }

  function ServerRegistration(server: seq<string>): (r: string)
    ensures |r| > 0
  {
    "import " + ("registerServerComponent from 'react-on-rails/registerServerComponent/server';\n"
    + "registerServerComponent({" + Join(server, ",\n") + "});\n\n")
  }

  function ClientRegistration(client: seq<string>): string {
    "ReactOnRails.register({" + Join(client, ",\n") + "});"
  }

  /** `build_server_pack_content`. */
  function BuildServerPackContent(imports: seq<string>, server: seq<string>, client: seq<string>): (r: string)
    ensures |r| >= |BundleHeader(imports)| + |ClientRegistration(client)|
    ensures r[..|BundleHeader(imports)|] == BundleHeader(imports)
    ensures r[|r| - |ClientRegistration(client)|..] == ClientRegistration(client)
    ensures |server| == 0 <==> |r| == |BundleHeader(imports)| + |ClientRegistration(client)|
    ensures |server| > 0 ==>
      r[|BundleHeader(imports)|..|r| - |ClientRegistration(client)|] == ServerRegistration(server)
  {
    var header := BundleHeader(imports);
    var middle := if |server| > 0 then ServerRegistration(server) else "";
    var tail := ClientRegistration(client);
    Framed(header, middle, tail);
    header + middle + tail
  }

  /** Text put together from three parts starts with the first, ends with
      the last and holds the second between them. */
  lemma Framed(h: string, m: string, t: string)
    ensures (h + m + t)[..|h|] == h
    ensures (h + m + t)[|h|..|h + m + t| - |t|] == m
    ensures (h + m + t)[|h + m + t| - |t|..] == t
  {
  }

  /** `generated_server_pack_file_content`. */
  function GeneratedServerPackContent(cfg: Config, src: seq<SourceFile>): (r: Result<string>)
    ensures r.Ok? <==> ServerComponents(src).Ok?
    ensures r.Err? ==> r.error == ServerComponents(src).error
    ensures r.Ok? ==>
      var header := BundleHeader(Imports(cfg, Registrations(src).value));
      |header| <= |r.value| && r.value[..|header|] == header
  {
    var m :- Registrations(src);
    Ok(BuildServerPackContent(Imports(cfg, m), ServerNames(cfg, m), ClientNames(cfg, m)))
  }

  /** Property: every import of the bundle leads to the registered file,
      for files outside the bundle's own directory. */
  lemma BundleImportsResolve(cfg: Config, m: Components, i: nat)
    requires i < |m| && |GeneratedBundlePath(cfg)| > 0
    requires Normal(m[i].1.path) && !Below(Parent(GeneratedBundlePath(cfg)), m[i].1.path)
    ensures Imports(cfg, m)[i] ==
      ImportLine(m[i].0, Render(RelativePath(GeneratedBundlePath(cfg), m[i].1.path)))
    ensures Resolve(Parent(GeneratedBundlePath(cfg)), RelativePath(GeneratedBundlePath(cfg), m[i].1.path))
      == m[i].1.path
  {
    var b := GeneratedBundlePath(cfg);
    var p := m[i].1.path;
    NotBelowFile(b, p);
    RelativePathTextResolves(b, p);
  }

  /** What lies neither in nor at the directory of a file lies neither
      below the file nor is that directory. */
  lemma NotBelowFile(f: Path, p: Path)
    requires |f| > 0 && !Below(Parent(f), p)
    ensures !Below(f, p) && p != Parent(f)
  {
    var d := Parent(f);
    if |f| <= |p| {
      assert p[..|d|] == p[..|f|][..|d|];
      assert f[..|d|] == d;
    }
  }

  // ---------------------------------------------------------------------
  // The import prepended to the host's server entry

  /** The path of the bundle relative to the server entry. */
  function BundleRelPath(cfg: Config): string {
    RelativePathText(Entrypoint(cfg), GeneratedBundlePath(cfg))
  }

  /** The text `add_generated_pack_to_server_bundle` prepends. */
  function PrependText(rel: string): string {
    "// import statement added by react_on_rails:generate_packs rake task\n"
    + ("import " + ("\"" + ("./" + rel) + "\"\n"))
  }

  /** `import ['"]\./REL['"]` matches at `i`, with the path matched literally. */
  predicate ImportAt(s: string, rel: string, i: int) {
    && At(s, "import ", i)
    && i + 7 < |s| && IsQuote(s[i + 7])
    && At(s, "./" + rel, i + 8)
    && i + 10 + |rel| < |s| && IsQuote(s[i + 10 + |rel|])
  }

  predicate HasImport(s: string, rel: string) {
    exists i :: 0 <= i < |s| && ImportAt(s, rel, i)
  }

  /** `prepend_to_file_if_text_not_present`, on the file's text. */
  function PrependIfAbsent(s: string, rel: string): (r: string)
    ensures HasImport(s, rel) ==> r == s
    ensures !HasImport(s, rel) ==> r == PrependText(rel) + s
  {
    if HasImport(s, rel) then s else PrependText(rel) + s
  }

  /** The prepended text carries the import the guard looks for. */
  lemma PrependedHasImport(rel: string, s: string)
    ensures HasImport(PrependText(rel) + s, rel)
  {
    var t := PrependText(rel) + s;
    var c := "// import statement added by react_on_rails:generate_packs rake task\n";
    var q := "\"" + ("./" + rel) + "\"\n";
    assert |c| == 69;
    assert t == c + ("import " + q) + s;
    assert t[69..76] == "import ";
    assert t[76] == '"';
    assert t[77..79 + |rel|] == "./" + rel;
    assert t[79 + |rel|] == '"';
    assert ImportAt(t, rel, 69);
  }

  /** Property: prepending is idempotent, so a second run adds nothing. */
  lemma PrependIdempotent(s: string, rel: string)
    ensures PrependIfAbsent(PrependIfAbsent(s, rel), rel) == PrependIfAbsent(s, rel)
    ensures HasImport(PrependIfAbsent(s, rel), rel)
  {
    if !HasImport(s, rel) {
      PrependedHasImport(rel, s);
    }
  }
}
