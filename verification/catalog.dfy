/** The component catalog: the name-to-file hashes of the three categories
    and the three fatal consistency errors. */
module Catalog {
  import opened Base
  import opened Paths
  import opened Naming
  import opened OrderedMaps

  /** A file the component glob lists: its path, its modification time in
      whole seconds, and its text. */
  datatype SourceFile = SourceFile(path: Path, mtime: int, text: string)

  /** The three globs over the components directories. */
  datatype Category = Common | Client | Server

  predicate InCategory(p: Path, c: Category) {
    match c
    case Common => IsCommon(p)
    case Client => IsClient(p)
    case Server => IsServer(p)
  }

  /** A hash from component name to the file that defines it. */
  type Components = OMap<SourceFile>

  function NameOfFile(f: SourceFile): string {
    ComponentName(f.path)
  }

  /** The files of one category, in listing order. */
  function CategoryFiles(src: seq<SourceFile>, c: Category): seq<SourceFile> {
    Filter(src, (f: SourceFile) => InCategory(f.path, c))
  }

  /** `component_name_to_path` over the files of one category. */
  function CategoryMap(src: seq<SourceFile>, c: Category): (m: Components)
    ensures UniqueKeys(m)
    ensures forall i :: 0 <= i < |m| ==>
      m[i].1 in src && InCategory(m[i].1.path, c) && ComponentName(m[i].1.path) == m[i].0
  {
    var files := CategoryFiles(src, c);
    FromListKeys(files, NameOfFile);
    FromListEntries(files, NameOfFile);
    FromList(files, NameOfFile)
  }

  /** `common_component_to_path`. */
  function CommonComponents(src: seq<SourceFile>): Components {
    CategoryMap(src, Common)
  }

  /** Some file of category `c` is named `k`. */
  predicate HasName(src: seq<SourceFile>, c: Category, k: string) {
    exists i :: 0 <= i < |src| && InCategory(src[i].path, c) && ComponentName(src[i].path) == k
  }

  /** Property: a category's hash has a key exactly for the names of its files. */
  lemma KeysOfCategory(src: seq<SourceFile>, c: Category, k: string)
    ensures k in Keys(CategoryMap(src, c)) <==> HasName(src, c, k)
  {
    if k in Keys(CategoryMap(src, c)) {
      KeyHasFile(src, c, k);
    }
    if HasName(src, c, k) {
      var i :| 0 <= i < |src| && InCategory(src[i].path, c) && ComponentName(src[i].path) == k;
      FileHasKey(src, c, i);
    }
  }

  lemma KeyHasFile(src: seq<SourceFile>, c: Category, k: string)
    requires k in Keys(CategoryMap(src, c))
    ensures HasName(src, c, k)
  {
    var m := CategoryMap(src, c);
    var x :| 0 <= x < |m| && m[x].0 == k;
    var f := m[x].1;
    var i :| 0 <= i < |src| && src[i] == f;
  }

  lemma FileHasKey(src: seq<SourceFile>, c: Category, i: nat)
    requires i < |src| && InCategory(src[i].path, c)
    ensures ComponentName(src[i].path) in Keys(CategoryMap(src, c))
  {
    var files := CategoryFiles(src, c);
    var ks := KeyList(files, NameOfFile);
    FromListKeys(files, NameOfFile);
    assert src[i] in files;
    var j :| 0 <= j < |files| && files[j] == src[i];
    assert ks[j] == ComponentName(src[i].path);
    assert Keys(CategoryMap(src, c)) == Dedup(ks);
  }

  /** The index of the first key satisfying `p`. */
  function FirstWhere(ks: seq<string>, p: string -> bool): (r: Option<nat>)
    ensures r.Some? ==> r.value < |ks| && p(ks[r.value])
    ensures r.Some? ==> forall j :: 0 <= j < r.value ==> !p(ks[j])
    ensures r.None? ==> forall j :: 0 <= j < |ks| ==> !p(ks[j])
  {
    if |ks| == 0 then None
    else if p(ks[0]) then Some(0)
    else match FirstWhere(ks[1..], p)
      case None => None
      case Some(i) => Some(i + 1)
  }

  /** The first key of `ks` that is also in `other`: `other.slice(*ks)`
      iterated in the order of `ks`. */
  function FirstShared(ks: seq<string>, other: seq<string>): (r: Option<string>)
    ensures r.Some? ==> r.value in ks && r.value in other
    ensures r.None? <==> forall j :: 0 <= j < |ks| ==> ks[j] !in other
  {
    match FirstWhere(ks, k => k in other)
    case None => None
    case Some(i) => Some(ks[i])
  }

  /** The first key of `ks` missing from `other`. */
  function FirstMissing(ks: seq<string>, other: seq<string>): (r: Option<string>)
    ensures r.Some? ==> r.value in ks && r.value !in other
    ensures r.None? <==> forall j :: 0 <= j < |ks| ==> ks[j] in other
  {
    match FirstWhere(ks, k => k !in other)
    case None => None
    case Some(i) => Some(ks[i])
  }

  /** `client_component_to_path`: the client hash, unless a client name is
      also a common one. */
  function ClientComponents(src: seq<SourceFile>): (r: Result<Components>)
    ensures r.Ok? ==> r.value == CategoryMap(src, Client)
    ensures r.Err? ==>
      && r.error.ClientOverridesCommon?
      && r.error.name in Keys(CategoryMap(src, Client))
      && r.error.name in Keys(CommonComponents(src))
  {
    var client := CategoryMap(src, Client);
    match FirstShared(Keys(client), Keys(CommonComponents(src)))
    case Some(k) => Err(ClientOverridesCommon(k))
    case None => Ok(client)
  }

  /** `server_component_to_path`: the server hash, unless a server name is
      also a common one, or (once there is a server file at all) the client
      hash fails, or a server name has no client file. */
  function ServerComponents(src: seq<SourceFile>): (r: Result<Components>)
    ensures r.Ok? ==> r.value == CategoryMap(src, Server)
    ensures r.Err? && r.error.ServerOverridesCommon? ==>
      r.error.name in Keys(CategoryMap(src, Server)) && r.error.name in Keys(CommonComponents(src))
    ensures r.Err? && r.error.ClientOverridesCommon? ==>
      |CategoryMap(src, Server)| > 0 && ClientComponents(src).Err? && r.error == ClientComponents(src).error
    ensures r.Err? && r.error.MissingClient? ==>
      r.error.name in Keys(CategoryMap(src, Server)) && r.error.name !in Keys(CategoryMap(src, Client))
  {
    var server := CategoryMap(src, Server);
    var clash := FirstShared(Keys(server), Keys(CommonComponents(src)));
    if clash.Some? then Err(ServerOverridesCommon(clash.value))
    else if |server| == 0 then Ok(server)
    else
      var client := ClientComponents(src);
      if client.Err? then Err(client.error)
      else
        var missing := FirstMissing(Keys(server), Keys(client.value));
        if missing.Some? then Err(MissingClient(missing.value)) else Ok(server)
  }

  /** Some name is defined by a file of category `a` and one of category `b`. */
  predicate Overlap(src: seq<SourceFile>, a: Category, b: Category) {
    exists i, j :: 0 <= i < |src| && 0 <= j < |src| &&
      InCategory(src[i].path, a) && InCategory(src[j].path, b) &&
      ComponentName(src[i].path) == ComponentName(src[j].path)
  }

  /** `FirstShared` finds nothing exactly when the categories share no name. */
  lemma FirstSharedOfCategories(src: seq<SourceFile>, a: Category, b: Category)
    ensures FirstShared(Keys(CategoryMap(src, a)), Keys(CategoryMap(src, b))).None?
      <==> !Overlap(src, a, b)
  {
    var ka := Keys(CategoryMap(src, a));
    var kb := Keys(CategoryMap(src, b));
    if Overlap(src, a, b) {
      var i, j :| 0 <= i < |src| && 0 <= j < |src| &&
        InCategory(src[i].path, a) && InCategory(src[j].path, b) &&
        ComponentName(src[i].path) == ComponentName(src[j].path);
      var k := ComponentName(src[i].path);
      KeysOfCategory(src, a, k);
      KeysOfCategory(src, b, k);
      var x :| 0 <= x < |ka| && ka[x] == k;
    } else {
      forall x | 0 <= x < |ka|
        ensures ka[x] !in kb
      {
        KeysOfCategory(src, a, ka[x]);
        KeysOfCategory(src, b, ka[x]);
      }
    }
  }

  /** Property: the client hash is produced exactly when no client name is
      also a common name; otherwise the error names such a component. */
  lemma ClientValidation(src: seq<SourceFile>)
    ensures ClientComponents(src).Ok? <==> !Overlap(src, Client, Common)
    ensures ClientComponents(src).Ok? ==> ClientComponents(src).value == CategoryMap(src, Client)
    ensures ClientComponents(src).Err? ==>
      var e := ClientComponents(src).error;
      e.ClientOverridesCommon? && HasName(src, Client, e.name) && HasName(src, Common, e.name)
  {
    FirstSharedOfCategories(src, Client, Common);
    var r := FirstShared(Keys(CategoryMap(src, Client)), Keys(CommonComponents(src)));
    if r.Some? {
      KeysOfCategory(src, Client, r.value);
      KeysOfCategory(src, Common, r.value);
    }
  }

  /** Every server name has a client file. */
  predicate ServerNamesHaveClients(src: seq<SourceFile>) {
    forall i :: 0 <= i < |src| && InCategory(src[i].path, Server) ==>
      HasName(src, Client, ComponentName(src[i].path))
  }

  /** Some file is a server file. */
  predicate HasServerFile(src: seq<SourceFile>) {
    exists i :: 0 <= i < |src| && InCategory(src[i].path, Server)
  }

  lemma ServerMapEmpty(src: seq<SourceFile>)
    ensures |CategoryMap(src, Server)| == 0 <==> !HasServerFile(src)
  {
    if HasServerFile(src) {
      var i :| 0 <= i < |src| && InCategory(src[i].path, Server);
      KeysOfCategory(src, Server, ComponentName(src[i].path));
    }
  }

  lemma FirstMissingOfCategories(src: seq<SourceFile>)
    ensures FirstMissing(Keys(CategoryMap(src, Server)), Keys(CategoryMap(src, Client))).None?
      <==> ServerNamesHaveClients(src)
  {
    var ks := Keys(CategoryMap(src, Server));
    var kc := Keys(CategoryMap(src, Client));
    if ServerNamesHaveClients(src) {
      forall x | 0 <= x < |ks|
        ensures ks[x] in kc
      {
        KeysOfCategory(src, Server, ks[x]);
        KeysOfCategory(src, Client, ks[x]);
      }
    } else {
      var i :| 0 <= i < |src| && InCategory(src[i].path, Server) &&
        !HasName(src, Client, ComponentName(src[i].path));
      var k := ComponentName(src[i].path);
      KeysOfCategory(src, Server, k);
      KeysOfCategory(src, Client, k);
      var x :| 0 <= x < |ks| && ks[x] == k;
    }
  }

  /** Property: the server hash is produced exactly when no server name is a
      common name and, if there is any server file, the client hash is valid
      and covers every server name. */
  lemma ServerValidation(src: seq<SourceFile>)
    ensures ServerComponents(src).Ok? <==>
      && !Overlap(src, Server, Common)
      && (HasServerFile(src) ==> !Overlap(src, Client, Common) && ServerNamesHaveClients(src))
    ensures ServerComponents(src).Ok? ==> ServerComponents(src).value == CategoryMap(src, Server)
  {
    FirstSharedOfCategories(src, Server, Common);
    ServerMapEmpty(src);
    ClientValidation(src);
    FirstMissingOfCategories(src);
  }

  /** Property: the server-overrides-common check runs first: an overlap of
      server and common names is reported as such, whatever else is wrong. */
  lemma ServerOverrideReportedFirst(src: seq<SourceFile>)
    requires Overlap(src, Server, Common)
    ensures ServerComponents(src).Err?
    ensures ServerComponents(src).error.ServerOverridesCommon?
    ensures HasName(src, Server, ServerComponents(src).error.name)
    ensures HasName(src, Common, ServerComponents(src).error.name)
  {
    FirstSharedOfCategories(src, Server, Common);
    var r := FirstShared(Keys(CategoryMap(src, Server)), Keys(CommonComponents(src)));
    KeysOfCategory(src, Server, r.value);
    KeysOfCategory(src, Common, r.value);
  }

  /** Property: a server name without a client file is reported as missing
      its client once the server and client names clash with no common name. */
  lemma MissingClientReported(src: seq<SourceFile>, i: nat)
    requires i < |src| && InCategory(src[i].path, Server)
    requires !HasName(src, Client, ComponentName(src[i].path))
    requires !Overlap(src, Server, Common) && !Overlap(src, Client, Common)
    ensures ServerComponents(src).Err? && ServerComponents(src).error.MissingClient?
    ensures HasName(src, Server, ServerComponents(src).error.name)
    ensures !HasName(src, Client, ServerComponents(src).error.name)
  {
    ServerValidation(src);
    ClientValidation(src);
    FirstSharedOfCategories(src, Server, Common);
    ServerMapEmpty(src);
    var r := FirstMissing(Keys(CategoryMap(src, Server)), Keys(CategoryMap(src, Client)));
    FirstMissingOfCategories(src);
    KeysOfCategory(src, Server, r.value);
    KeysOfCategory(src, Client, r.value);
  }
}
