/**
 * The manifest patch at the end of main: the first module named after the
 * app module gets the foreign-dependency descriptors, and a reference to
 * cargo-sources.json when there are Cargo lockfiles, added to its sources.
 */
module Manifest {
  import opened Common
  import opened Strings
  import opened ForeignDeps

  const CARGO_SOURCES := "cargo-sources.json"

  /** An entry of a module's source list: a descriptor, or the name of a JSON file holding more. */
  datatype SourceEntry = Inline(source: Source) | Reference(file: string)

  /** An entry of the manifest's module list. */
  datatype ModuleEntry =
    /** A module kept in a file of its own, given by its name. */
    | FileRef(path: string)
    /** A module written out, with its optional name and source list and its other keys. */
    | ModuleDef(name: Option<string>, sources: Option<seq<SourceEntry>>, other: seq<(string, string)>)

  /**
   * Where the loop stops: at the app module (break), or at a module given by
   * a file name containing "name", which `'name' in module` finds as a
   * substring and `module['name']` then indexes like a mapping (TypeError).
   */
  predicate Stops(m: ModuleEntry, appModule: string): (b: bool)
    ensures m.FileRef? && |m.path| < 4 ==> !b
    ensures m.ModuleDef? && m.name.None? ==> !b
    ensures b && m.ModuleDef? ==> m.name.value == appModule
  {
    match m
    case FileRef(p) => Contains(p, "name")
    case ModuleDef(name, _, _) => name == Some(appModule)
  }

  /** What the app module gains: the descriptors, then cargo-sources.json when there are Cargo lockfiles. */
  function Added(sources: seq<Source>, cargoLocks: seq<string>): (r: seq<SourceEntry>)
    ensures |r| == |sources| + (if |cargoLocks| > 0 then 1 else 0)
    ensures forall i :: 0 <= i < |sources| ==> r[i] == Inline(sources[i])
    ensures |cargoLocks| > 0 ==> r[|sources|] == Reference(CARGO_SOURCES)
  {
    seq(|sources|, i requires 0 <= i < |sources| => Inline(sources[i]))
      + (if |cargoLocks| > 0 then [Reference(CARGO_SOURCES)] else [])
  }

  /** The app module with the additions made, or the KeyError of a missing source list. */
  function Extended(m: ModuleEntry, appModule: string, added: seq<SourceEntry>): (r: Result<ModuleEntry>)
    requires m.ModuleDef?
    ensures r.Err? <==> added != [] && m.sources.None?
    ensures r.Ok? ==> r.value.ModuleDef? && r.value.name == m.name && r.value.other == m.other
    ensures r.Ok? && m.sources.Some? ==> r.value.sources == Some(m.sources.value + added)
  {
    if added == [] then
      assert m.sources.Some? ==> m.sources.value + added == m.sources.value;
      Ok(m)
    else if m.sources.None? then Err(ModuleWithoutSources(appModule))
    else Ok(m.(sources := Some(m.sources.value + added)))
  }

  /** The module list after the patch, walking from the front. */
  function Patch(modules: seq<ModuleEntry>, appModule: string, sources: seq<Source>, cargoLocks: seq<string>)
    : (r: Result<seq<ModuleEntry>>)
    ensures r.Ok? ==> |r.value| == |modules|
    ensures r.Ok? ==> forall i :: 0 <= i < |modules| ==>
      r.value[i] == modules[i] || (modules[i].ModuleDef? && r.value[i].ModuleDef? && r.value[i].name == modules[i].name)
  {
    if modules == [] then Ok([])
    else
      var m := modules[0];
      if Stops(m, appModule) then
        if m.FileRef? then Err(ModuleReferenceIndexed(m.path))
        else
          match Extended(m, appModule, Added(sources, cargoLocks))
          case Err(e) => Err(e)
          case Ok(m') => Ok([m'] + modules[1..])
      else
        match Patch(modules[1..], appModule, sources, cargoLocks)
        case Err(e) => Err(e)
        case Ok(rest) => Ok([m] + rest)
  }

  /** When the loop runs to the end, the manifest is left as it was. */
  lemma {:induction false} PatchWithoutMatch(modules: seq<ModuleEntry>, appModule: string, sources: seq<Source>, cargoLocks: seq<string>)
    requires forall j :: 0 <= j < |modules| ==> !Stops(modules[j], appModule)
    ensures Patch(modules, appModule, sources, cargoLocks) == Ok(modules)
    decreases |modules|
  {
    if modules != [] {
      PatchWithoutMatch(modules[1..], appModule, sources, cargoLocks);
      assert [modules[0]] + modules[1..] == modules;
    }
  }

  /**
   * When the loop stops at index k: a file name there is a TypeError; at the
   * app module, only that module changes, its sources becoming the old ones
   * followed by the descriptors and, with Cargo lockfiles, cargo-sources.json;
   * a KeyError when it has no source list to extend; and nothing at all
   * when there is nothing to add.
   */
  lemma {:induction false} PatchAtFirstStop(modules: seq<ModuleEntry>, appModule: string, sources: seq<Source>,
                                            cargoLocks: seq<string>, k: nat)
    requires k < |modules| && Stops(modules[k], appModule)
    requires forall j :: 0 <= j < k ==> !Stops(modules[j], appModule)
    ensures var r := Patch(modules, appModule, sources, cargoLocks);
      var added := Added(sources, cargoLocks);
      var m := modules[k];
      && (m.FileRef? ==> r == Err(ModuleReferenceIndexed(m.path)))
      && (m.ModuleDef? && added == [] ==> r == Ok(modules))
      && (m.ModuleDef? && added != [] && m.sources.None? ==> r == Err(ModuleWithoutSources(appModule)))
      && (m.ModuleDef? && added != [] && m.sources.Some? ==>
            r == Ok(modules[k := m.(sources := Some(m.sources.value + added))]))
    decreases k
  {
    if k == 0 {
      assert [modules[0]] + modules[1..] == modules;
      var m := modules[0];
      if m.ModuleDef? && Added(sources, cargoLocks) != [] && m.sources.Some? {
        assert [m.(sources := Some(m.sources.value + Added(sources, cargoLocks)))] + modules[1..]
            == modules[0 := m.(sources := Some(m.sources.value + Added(sources, cargoLocks)))];
      }
    } else {
      PatchAtFirstStop(modules[1..], appModule, sources, cargoLocks, k - 1);
      assert [modules[0]] + modules[1..] == modules;
      var m := modules[k];
      if m.ModuleDef? && Added(sources, cargoLocks) != [] && m.sources.Some? {
        var m' := m.(sources := Some(m.sources.value + Added(sources, cargoLocks)));
        assert [modules[0]] + modules[1..][k - 1 := m'] == modules[k := m'];
      }
    }
  }

  /** A module the patch changes is a written-out module whose source list gained the additions at its end. */
  lemma {:induction false} PatchChangesOnlyByExtending(modules: seq<ModuleEntry>, appModule: string, sources: seq<Source>,
                                                       cargoLocks: seq<string>)
    requires Patch(modules, appModule, sources, cargoLocks).Ok?
    ensures var r := Patch(modules, appModule, sources, cargoLocks).value;
      forall i :: 0 <= i < |modules| && r[i] != modules[i] ==>
        && modules[i].ModuleDef? && modules[i].name == Some(appModule) && modules[i].sources.Some?
        && r[i] == modules[i].(sources := Some(modules[i].sources.value + Added(sources, cargoLocks)))
    decreases |modules|
  {
    if modules != [] && !Stops(modules[0], appModule) {
      PatchChangesOnlyByExtending(modules[1..], appModule, sources, cargoLocks);
      var r := Patch(modules, appModule, sources, cargoLocks).value;
      var rest := Patch(modules[1..], appModule, sources, cargoLocks).value;
      assert r == [modules[0]] + rest;
      forall i | 0 < i < |modules| && r[i] != modules[i]
        ensures modules[i].ModuleDef? && modules[i].name == Some(appModule) && modules[i].sources.Some?
        ensures r[i] == modules[i].(sources := Some(modules[i].sources.value + Added(sources, cargoLocks)))
      {
        assert r[i] == rest[i - 1] && modules[i] == modules[1..][i - 1];
      }
    }
  }

  /** The loop of lines 279-285 over the manifest's module list, patching the app module in place. */
  method PatchManifest(modules: array<ModuleEntry>, appModule: string, sources: seq<Source>, cargoLocks: seq<string>)
    returns (err: Option<Error>)
    modifies modules
    ensures var r := Patch(old(modules[..]), appModule, sources, cargoLocks);
      && (r.Ok? ==> err.None? && modules[..] == r.value)
      && (r.Err? ==> err == Some(r.error) && modules[..] == old(modules[..]))
  {
    var i := 0;
    while i < modules.Length
      invariant 0 <= i <= modules.Length
      invariant modules[..] == old(modules[..])
      invariant forall j :: 0 <= j < i ==> !Stops(modules[j], appModule)
    {
      var entry := modules[i];
      if entry.FileRef? {
        if Contains(entry.path, "name") {
          PatchAtFirstStop(modules[..], appModule, sources, cargoLocks, i);
          return Some(ModuleReferenceIndexed(entry.path));
        }
      } else if entry.name == Some(appModule) {
        PatchAtFirstStop(modules[..], appModule, sources, cargoLocks, i);
        var updated := entry;
        if |sources| > 0 {
          if updated.sources.None? {
            return Some(ModuleWithoutSources(appModule));
          }
          updated := updated.(sources := Some(updated.sources.value + Added(sources, [])));
        }
        if |cargoLocks| > 0 {
          if updated.sources.None? {
            return Some(ModuleWithoutSources(appModule));
          }
          updated := updated.(sources := Some(updated.sources.value + [Reference(CARGO_SOURCES)]));
        }
        assert entry.sources.Some? && updated != entry ==>
          updated.sources.value == entry.sources.value + Added(sources, cargoLocks);
        modules[i] := updated;
        return None;
      }
      i := i + 1;
    }
    PatchWithoutMatch(modules[..], appModule, sources, cargoLocks);
    return None;
  }

  /**
   * Modules `a` and `myapp` (with an empty source list), two descriptors and
   * no Cargo lockfile: `myapp` ends up with exactly those two descriptors,
   * in order, and `a` is unchanged.
   */
  lemma PatchExample(d1: Source, d2: Source)
    ensures var a := ModuleDef(Some("a"), None, []);
      var app := ModuleDef(Some("myapp"), Some([]), []);
      Patch([a, app], "myapp", [d1, d2], [])
        == Ok([a, ModuleDef(Some("myapp"), Some([Inline(d1), Inline(d2)]), [])])
  {
    var a := ModuleDef(Some("a"), None, []);
    var app := ModuleDef(Some("myapp"), Some([]), []);
    assert "a" != "myapp";
    assert !Stops(a, "myapp");
    PatchAtFirstStop([a, app], "myapp", [d1, d2], [], 1);
    var added := Added([d1, d2], []);
    assert added == [Inline(d1), Inline(d2)];
    assert [] + added == added;
    assert [a, app][1 := app.(sources := Some([] + added))] == [a, ModuleDef(Some("myapp"), Some(added), [])];
  }
}
