/** Per-component packs: where each generated pack goes and what it says. */
module Packs {
  import opened Base
  import opened Text
  import opened Paths
  import opened Naming
  import opened DirectiveScanner
  import opened Catalog

  /** What the generator reads from its configuration and the host. */
  datatype Config = Config(
    autoLoadBundle: bool,          // `auto_load_bundle`
    bundleIsEntrypoint: bool,      // `make_generated_server_bundle_the_entrypoint`
    serverBundleFile: seq<string>, // `server_bundle_js_file`, as segments; empty when unset
    sourceEntry: Path,             // `packer_source_entry_path`
    rscEnabled: bool)              // `rsc_support_enabled?`

  /** `generated_packs_directory_path`. */
  function PacksDir(cfg: Config): Path {
    cfg.sourceEntry + ["generated"]
  }

  /** `generated_pack_path`: the pack of component `p`. */
  function PackPath(cfg: Config, p: Path): (r: Path)
    ensures Below(PacksDir(cfg), r) && |r| == |PacksDir(cfg)| + 1
  {
    PacksDir(cfg) + [ComponentName(p) + ".js"]
  }

  /** Property: two components share a pack exactly when they share a name. */
  lemma PackPathsDistinct(cfg: Config, p: Path, q: Path)
    ensures PackPath(cfg, p) == PackPath(cfg, q) <==> ComponentName(p) == ComponentName(q)
  {
    var a := PackPath(cfg, p);
    var b := PackPath(cfg, q);
    if a == b {
      assert a[|a| - 1] == b[|b| - 1];
      var x := ComponentName(p) + ".js";
      var y := ComponentName(q) + ".js";
      assert x[..|x| - 3] == y[..|y| - 3];
    }
  }

  /** Every pack lies directly in the packs directory. */
  lemma PackInPacksDir(cfg: Config, p: Path)
    ensures Parent(PackPath(cfg, p)) == PacksDir(cfg)
    ensures Below(PacksDir(cfg), PackPath(cfg, p))
  {
  }

  /** `relative_component_path_from_generated_pack`. */
  function RelativeComponentPath(cfg: Config, p: Path): string {
    RelativePathText(PackPath(cfg, p), p)
  }

  /** Property: the import in a client pack leads from the packs directory
      to the component, for every component outside that directory. */
  lemma PackImportResolves(cfg: Config, p: Path)
    requires Normal(p) && !Below(PacksDir(cfg), p)
    ensures RelativeComponentPath(cfg, p) == Render(RelativePath(PackPath(cfg, p), p))
    ensures Resolve(PacksDir(cfg), RelativePath(PackPath(cfg, p), p)) == p
  {
    var from := PackPath(cfg, p);
    var d := PacksDir(cfg);
    NotBelowPack(cfg, p);
    RelativePathTextResolves(from, p);
  }

  lemma NotBelowPack(cfg: Config, p: Path)
    requires !Below(PacksDir(cfg), p)
    ensures !Below(PackPath(cfg, p), p) && p != PacksDir(cfg)
  {
    var from := PackPath(cfg, p);
    var d := PacksDir(cfg);
    assert from[..|d|] == d;
    if |from| <= |p| {
      assert p[..|d|] == p[..|from|][..|d|];
    }
  }

  /** The pack of a server component. */
  function ServerPackText(name: string): string {
    "import " + ("registerServerComponent from 'react-on-rails/registerServerComponent/client';\n\n"
    + "registerServerComponent(\"" + name + "\");")
  }

  /** The pack of a component rendered on the client. */
  function ClientPackText(name: string, rel: string): string {
    "import " + ("ReactOnRails from 'react-on-rails/client';\n"
    + "import " + name + " from '" + rel + "';\n\n"
    + "ReactOnRails.register({" + name + "});")
  }

  /** Server rendering as a server component applies when support for it is
      on and the file does not start with a `"use client"` directive. */
  predicate IsServerComponent(cfg: Config, f: SourceFile) {
    cfg.rscEnabled && !IsClientEntrypoint(f.text)
  }

  /** `pack_file_contents`: a heredoc, stripped. */
  function PackContent(cfg: Config, f: SourceFile): (r: string)
    ensures IsServerComponent(cfg, f) ==> r == ServerPackText(ComponentName(f.path))
    ensures !IsServerComponent(cfg, f) ==>
      r == ClientPackText(ComponentName(f.path), RelativeComponentPath(cfg, f.path))
  {
    var name := ComponentName(f.path);
    if IsServerComponent(cfg, f) then
      ServerPackTextTrimmed(name);
      Heredoc(ServerPackText(name))
    else
      var rel := RelativeComponentPath(cfg, f.path);
      ClientPackTextTrimmed(name, rel);
      Heredoc(ClientPackText(name, rel))
  }

  /** A heredoc body ends in a newline that `strip` removes again; a text
      with no blank at either end is left as it is. */
  function Heredoc(t: string): (r: string)
    requires |t| > 0 && t[0] == 'i' && t[|t| - 1] == ';'
    ensures r == t
  {
    StripFinalNewline(t);
    Strip(t + "\n")
  }

  lemma ServerPackTextTrimmed(name: string)
    ensures |ServerPackText(name)| > 0
    ensures ServerPackText(name)[0] == 'i'
    ensures ServerPackText(name)[|ServerPackText(name)| - 1] == ';'
  {
  }

  lemma ClientPackTextTrimmed(name: string, rel: string)
    ensures |ClientPackText(name, rel)| > 0
    ensures ClientPackText(name, rel)[0] == 'i'
    ensures ClientPackText(name, rel)[|ClientPackText(name, rel)| - 1] == ';'
  {
  }
}
