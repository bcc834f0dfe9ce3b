/** `dove build`: what it writes after compiling a project. Verified units
    are split into modules and scripts; modules go to the module output
    directory either as one `.mv` file per unit or as a single JSON bundle,
    scripts go to the script output directory, and internal compiler
    errors turn the whole command into an error after everything is stored.
    The compiler, the bytecode verifier, the identifier and access-path
    constructors and the filesystem's own failures lie outside the model. */
module BuildCmd {
  import opened Wrappers
  import opened Fmt
  import opened Hex
  import opened MoveTypes
  import opened Paths

  /** The `dove build` options: `--json` stores modules as one bundle. */
  datatype Build = Build(json: bool)

  /** What the command reads from the project context: the resolved
      output directories, the manifest's package name and the project name. */
  datatype Context = Context(moduleOutput: string, scriptOutput: string,
                             packageName: Option<string>, projectName: string)

  /** A compiled unit; `bytes` is what `serialize()` produces for it. */
  datatype CompiledUnit =
    | Module(address: AccountAddress, name: string, bytes: seq<byte>)
    | Script(name: string, bytes: seq<byte>)

  /** A diagnostic of the bytecode verifier; only its presence matters. */
  type Diagnostic(!new)

  /** `move_core_types::identifier::Identifier`. */
  type Identifier(!new)

  /** `AccessPath`: the account and the path bytes that locate a module. */
  datatype AccessPath = AccessPath(address: AccountAddress, path: seq<byte>)

  /** One entry of the JSON bundle, with both byte strings hex-encoded. */
  datatype ModuleEntry = ModuleEntry(address: AccountAddress, accessVector: string, bytecode: string)

  datatype Modules = Modules(modules: seq<ModuleEntry>)

  /** The functions of the Move libraries this command calls:
      `Identifier::new`, `AccessPath::from(&ModuleId::new(..))` and
      `compiled_unit::verify_units`. */
  datatype Externals = Externals(
    identifierNew: string -> Result<Identifier>,
    accessPathOf: (AccountAddress, Identifier) -> AccessPath,
    verifyUnits: seq<CompiledUnit> -> (seq<CompiledUnit>, seq<Diagnostic>))

  // ----- `Modules::try_from` -----

  /** The modules of `units`, in order. */
  function ModulesOf(units: seq<CompiledUnit>): (r: seq<CompiledUnit>)
    ensures |r| <= |units|
    ensures forall u :: u in r ==> u.Module? && u in units
  {
    if units == [] then []
    else (if units[0].Module? then [units[0]] else []) + ModulesOf(units[1..])
  }

  /** The scripts of `units`, in order. */
  function ScriptsOf(units: seq<CompiledUnit>): (r: seq<CompiledUnit>)
    ensures |r| <= |units|
    ensures forall u :: u in r ==> u.Script? && u in units
  {
    if units == [] then []
    else (if units[0].Script? then [units[0]] else []) + ScriptsOf(units[1..])
  }

  /** The `filter_map` closure of lines 51-65 applied to one module. */
  function ModuleEntryOf(ext: Externals, u: CompiledUnit): (r: Result<ModuleEntry>)
    requires u.Module?
    ensures r.Ok? <==> ext.identifierNew(u.name).Ok?
    ensures r.Err? ==> r.error == ext.identifierNew(u.name).error
  {
    match ext.identifierNew(u.name)
    case Err(e) => Err(e)
    case Ok(id) =>
      var path := ext.accessPathOf(u.address, id);
      Ok(ModuleEntry(path.address, Hex.Encode(path.path), Hex.Encode(u.bytes)))
  }

  /** `Modules::try_from`: scripts are dropped, each module becomes an
      entry, and the first module whose name is not a valid identifier makes
      the whole conversion fail. */
  function TryFrom(ext: Externals, units: seq<CompiledUnit>): (r: Result<Modules>)
    ensures r.Ok? ==> |r.value.modules| == |ModulesOf(units)|
  {
    if units == [] then Ok(Modules([]))
    else
      var u := units[0];
      if u.Script? then TryFrom(ext, units[1..])
      else match ModuleEntryOf(ext, u)
        case Err(e) => Err(e)
        case Ok(m) =>
          match TryFrom(ext, units[1..])
          case Err(e) => Err(e)
          case Ok(rest) => Ok(Modules([m] + rest.modules))
  }

  /** The conversion succeeds exactly when every module name is a valid
      identifier. */
  lemma {:induction false} TryFromSucceedsIff(ext: Externals, units: seq<CompiledUnit>)
    ensures TryFrom(ext, units).Ok? <==>
            forall i :: 0 <= i < |units| && units[i].Module? ==> ext.identifierNew(units[i].name).Ok?
  {
    if units != [] {
      TryFromSucceedsIff(ext, units[1..]);
      assert forall i :: 1 <= i < |units| ==> units[i] == units[1..][i - 1];
    }
  }

  /** On success there is one entry per module, in input order, each the
      closure's result for that module. */
  lemma {:induction false} TryFromEntries(ext: Externals, units: seq<CompiledUnit>)
    requires TryFrom(ext, units).Ok?
    ensures forall k :: 0 <= k < |ModulesOf(units)| ==>
              ModuleEntryOf(ext, ModulesOf(units)[k]) == Ok(TryFrom(ext, units).value.modules[k])
  {
    if units != [] {
      var u, tail := units[0], units[1..];
      TryFromEntries(ext, tail);
      if u.Module? {
        var ms, es := ModulesOf(units), TryFrom(ext, units).value.modules;
        assert ms == [u] + ModulesOf(tail);
        var m := ModuleEntryOf(ext, u).value;
        assert es == [m] + TryFrom(ext, tail).value.modules;
        forall k | 0 <= k < |ms| ensures ModuleEntryOf(ext, ms[k]) == Ok(es[k]) {
          if k > 0 {
            assert ms[k] == ModulesOf(tail)[k - 1];
            assert es[k] == TryFrom(ext, tail).value.modules[k - 1];
          }
        }
      } else {
        assert ModulesOf(units) == ModulesOf(tail);
        assert TryFrom(ext, units) == TryFrom(ext, tail);
      }
    }
  }

  /** On failure the error is that of the first module whose name is
      rejected; every module before it was accepted. */
  lemma {:induction false} TryFromFirstError(ext: Externals, units: seq<CompiledUnit>)
    requires TryFrom(ext, units).Err?
    ensures exists i :: && 0 <= i < |units| && units[i].Module?
                        && ext.identifierNew(units[i].name).Err?
                        && ext.identifierNew(units[i].name).error == TryFrom(ext, units).error
                        && forall k :: 0 <= k < i && units[k].Module? ==> ext.identifierNew(units[k].name).Ok?
  {
    var u := units[0];
    if u.Module? && ext.identifierNew(u.name).Err? {
      assert units[0] == u;
    } else {
      TryFromFirstError(ext, units[1..]);
      var i :| && 0 <= i < |units[1..]| && units[1..][i].Module?
                && ext.identifierNew(units[1..][i].name).Err?
                && ext.identifierNew(units[1..][i].name).error == TryFrom(ext, units[1..]).error
                && forall k :: 0 <= k < i && units[1..][k].Module? ==> ext.identifierNew(units[1..][k].name).Ok?;
      assert units[i + 1] == units[1..][i];
      forall k | 0 <= k < i + 1 && units[k].Module? ensures ext.identifierNew(units[k].name).Ok? {
        if k > 0 {
          assert units[k] == units[1..][k - 1];
        }
      }
    }
  }

  /** Scripts never influence the bundle. */
  lemma {:induction false} TryFromIgnoresScripts(ext: Externals, units: seq<CompiledUnit>)
    ensures TryFrom(ext, units) == TryFrom(ext, ModulesOf(units))
  {
    if units != [] {
      TryFromIgnoresScripts(ext, units[1..]);
      var ms := ModulesOf(units);
      if units[0].Module? {
        assert ms == [units[0]] + ModulesOf(units[1..]);
        assert ms[0] == units[0] && ms[1..] == ModulesOf(units[1..]);
      } else {
        assert ms == ModulesOf(units[1..]);
      }
    }
  }

  /** Each entry carries the access path's account and hex texts that decode
      back to the access-path bytes and to the unit's serialized bytes. */
  lemma ModuleEntryDecodes(ext: Externals, u: CompiledUnit, id: Identifier)
    requires u.Module? && ext.identifierNew(u.name) == Ok(id)
    ensures ModuleEntryOf(ext, u).Ok?
    ensures ModuleEntryOf(ext, u).value.address == ext.accessPathOf(u.address, id).address
    ensures Hex.Decode(ModuleEntryOf(ext, u).value.accessVector) == Some(ext.accessPathOf(u.address, id).path)
    ensures Hex.Decode(ModuleEntryOf(ext, u).value.bytecode) == Some(u.bytes)
  {
    DecodeEncode(ext.accessPathOf(u.address, id).path);
    DecodeEncode(u.bytes);
  }

  // ----- the partition of lines 85-87 -----

  /** `Iterator::partition`: one pass that pushes each unit onto the module
      list or the script list. */
  function Partition(units: seq<CompiledUnit>): (parts: (seq<CompiledUnit>, seq<CompiledUnit>))
    ensures forall u :: u in parts.0 ==> u.Module?
    ensures forall u :: u in parts.1 ==> u.Script?
  {
    if units == [] then ([], [])
    else
      var (ms, ss) := Partition(units[..|units| - 1]);
      var u := units[|units| - 1];
      if u.Module? then (ms + [u], ss) else (ms, ss + [u])
  }

  lemma {:induction false} ModulesOfAppend(a: seq<CompiledUnit>, b: seq<CompiledUnit>)
    ensures ModulesOf(a + b) == ModulesOf(a) + ModulesOf(b)
  {
    if a == [] {
      assert a + b == b;
    } else {
      assert (a + b)[0] == a[0];
      assert (a + b)[1..] == a[1..] + b;
      ModulesOfAppend(a[1..], b);
    }
  }

  lemma {:induction false} ScriptsOfAppend(a: seq<CompiledUnit>, b: seq<CompiledUnit>)
    ensures ScriptsOf(a + b) == ScriptsOf(a) + ScriptsOf(b)
  {
    if a == [] {
      assert a + b == b;
    } else {
      assert (a + b)[0] == a[0];
      assert (a + b)[1..] == a[1..] + b;
      ScriptsOfAppend(a[1..], b);
    }
  }

  /** The partition keeps the relative order on each side: the modules are
      exactly the module units in input order, and likewise the scripts. */
  lemma {:induction false} PartitionKeepsOrder(units: seq<CompiledUnit>)
    ensures Partition(units) == (ModulesOf(units), ScriptsOf(units))
  {
    if units != [] {
      var init := units[..|units| - 1];
      var u := units[|units| - 1];
      PartitionKeepsOrder(init);
      assert units == init + [u];
      ModulesOfAppend(init, [u]);
      ScriptsOfAppend(init, [u]);
      assert [u][1..] == [];
      if u.Module? {
        assert ModulesOf([u]) == [u] && ScriptsOf([u]) == [];
        assert ScriptsOf(init) + [] == ScriptsOf(init);
      } else {
        assert ModulesOf([u]) == [] && ScriptsOf([u]) == [u];
        assert ModulesOf(init) + [] == ModulesOf(init);
      }
    }
  }

  /** Every unit lands on exactly one side. */
  lemma {:induction false} PartitionIsSplit(units: seq<CompiledUnit>)
    ensures multiset(Partition(units).0) + multiset(Partition(units).1) == multiset(units)
    ensures |Partition(units).0| + |Partition(units).1| == |units|
  {
    if units != [] {
      var init, u := units[..|units| - 1], units[|units| - 1];
      PartitionIsSplit(init);
      assert units == init + [u];
      var (ms, ss) := Partition(init);
      assert multiset(units) == multiset(init) + multiset{u};
      if u.Module? {
        assert Partition(units) == (ms + [u], ss);
        assert multiset(ms + [u]) == multiset(ms) + multiset{u};
      } else {
        assert Partition(units) == (ms, ss + [u]);
        assert multiset(ss + [u]) == multiset(ss) + multiset{u};
      }
    }
  }

  // ----- output file names -----

  /** `store_units` names unit `i` `"{i}_{name}"` with the extension set to
      `mv`; for a dot-free name (every Move identifier) that is
      `"{i}_{name}.mv"`. */
  function UnitFileName(i: nat, name: string): (f: string)
    ensures |f| > 3 && f[|f| - 3..] == ".mv"
    ensures NatToString(i) + "_" <= f
    ensures DotFree(name) ==> f == NatToString(i) + "_" + name + ".mv"
  {
    var p := NatToString(i) + "_";
    SetExtensionKeepsPrefix(p, name, "mv");
    UnitFileNameSpelled(i, name);
    var f := SetExtension(p + name, "mv");
    assert "." + "mv" == ".mv";
    assert f[|f| - 3..] == ".mv";
    f
  }

  /** With a dot-free name, setting the extension just appends `.mv`. */
  lemma UnitFileNameSpelled(i: nat, name: string)
    ensures DotFree(name) ==> SetExtension(NatToString(i) + "_" + name, "mv") == NatToString(i) + "_" + name + ".mv"
  {
    var d := NatToString(i);
    if DotFree(name) {
      var stem := d + "_" + name;
      forall k | 0 <= k < |d + "_" + name| ensures (d + "_" + name)[k] != '.' {
        if k < |d| {
          assert (d + "_" + name)[k] == d[k] && IsDigit(d[k]);
        } else if k == |d| {
          assert (d + "_" + name)[k] == '_';
        } else {
          assert (d + "_" + name)[k] == name[k - |d| - 1];
        }
      }
      assert DotFree(stem);
      SetExtensionNoDot(stem, "mv");
      assert stem + "." + "mv" == stem + ".mv";
    }
  }

  lemma DigitsThenUnderscore(m: string, n: string, x: string)
    requires forall k :: 0 <= k < |m| ==> IsDigit(m[k])
    requires forall k :: 0 <= k < |n| ==> IsDigit(n[k])
    requires m + "_" <= x && n + "_" <= x
    ensures m == n
  {
    forall k | 0 <= k < |m| ensures x[k] != '_' {
      assert x[k] == (m + "_")[k] == m[k];
    }
    forall k | 0 <= k < |n| ensures x[k] != '_' {
      assert x[k] == (n + "_")[k] == n[k];
    }
    assert x[|m|] == (m + "_")[|m|] == '_';
    assert x[|n|] == (n + "_")[|n|] == '_';
    assert |m| == |n|;
    assert m == x[..|m|] == n;
  }

  /** Two units written by one call never share a file name. */
  lemma UnitFileNamesDistinct(i: nat, a: string, j: nat, b: string)
    ensures UnitFileName(i, a) == UnitFileName(j, b) ==> i == j
  {
    if UnitFileName(i, a) == UnitFileName(j, b) {
      DigitsThenUnderscore(NatToString(i), NatToString(j), UnitFileName(i, a));
      NatToStringInjective(i, j);
    }
  }

  /** The bundle's file name: the package name with the extension set to
      `json`, or `modules.json` when the manifest names no package. A
      package name with a dot loses what follows its last dot. */
  function JsonFileName(packageName: Option<string>): (f: string)
    ensures |f| >= 5 && f[|f| - 5..] == ".json"
  {
    match packageName
    case Some(name) =>
      assert "." + "json" == ".json";
      SetExtension(name, "json")
    case None => "modules.json"
  }

  lemma JsonFileNames(name: string)
    ensures JsonFileName(None) == "modules.json"
    ensures DotFree(name) ==> JsonFileName(Some(name)) == name + ".json"
  {
    SetExtensionNoDot(name, "json");
  }

  /** A dotted package name loses what follows its last dot. */
  lemma JsonFileNameDropsSuffix(p: string, e: string)
    requires p != [] && DotFree(e)
    ensures JsonFileName(Some(p + "." + e)) == p + ".json"
  {
    SetExtensionReplaces(p, e, "json");
    assert p + "." + "json" == p + ".json";
  }

  lemma JsonFileNameOfDottedPackage()
    ensures JsonFileName(Some("coins.v2")) == "coins.json"
  {
    assert DotFree("v2");
    JsonFileNameDropsSuffix("coins", "v2");
    assert "coins" + "." + "v2" == "coins.v2";
    assert "coins" + ".json" == "coins.json";
  }

  // ----- the output directories -----

  /** A stored file: serialized bytecode or the JSON bundle. */
  datatype Content = Binary(bytes: seq<byte>) | Json(bundle: Modules)

  /** The files of each directory, by file name. */
  type Dirs = map<string, map<string, Content>>

  /** The files of a directory after `store_units` wrote `units` into it. */
  function WriteUnits(files: map<string, Content>, units: seq<CompiledUnit>): (r: map<string, Content>)
    ensures files.Keys <= r.Keys
  {
    if units == [] then files
    else
      var n := |units| - 1;
      WriteUnits(files, units[..n])[UnitFileName(n, units[n].name) := Binary(units[n].bytes)]
  }

  /** The names `store_units` gives to `units`. */
  function UnitNames(units: seq<CompiledUnit>): (names: set<string>)
    ensures |units| > 0 ==> UnitFileName(|units| - 1, units[|units| - 1].name) in names
  {
    if units == [] then {}
    else
      var n := |units| - 1;
      UnitNames(units[..n]) + {UnitFileName(n, units[n].name)}
  }

  /** A name for a later position is not among the names of `units`. */
  lemma {:induction false} LaterNameFresh(units: seq<CompiledUnit>, j: nat, name: string)
    requires |units| <= j
    ensures UnitFileName(j, name) !in UnitNames(units)
  {
    if units != [] {
      var n := |units| - 1;
      LaterNameFresh(units[..n], j, name);
      UnitFileNamesDistinct(j, name, n, units[n].name);
    }
  }

  /** Writing adds exactly the units' names to the directory. */
  lemma {:induction false} WriteUnitsKeys(files: map<string, Content>, units: seq<CompiledUnit>)
    ensures WriteUnits(files, units).Keys == files.Keys + UnitNames(units)
  {
    if units != [] {
      WriteUnitsKeys(files, units[..|units| - 1]);
    }
  }

  /** Every unit's file holds that unit's bytes. */
  lemma {:induction false} WriteUnitsFiles(files: map<string, Content>, units: seq<CompiledUnit>, i: nat)
    requires i < |units|
    ensures UnitFileName(i, units[i].name) in WriteUnits(files, units)
    ensures WriteUnits(files, units)[UnitFileName(i, units[i].name)] == Binary(units[i].bytes)
  {
    var n := |units| - 1;
    if i < n {
      var init := units[..n];
      WriteUnitsFiles(files, init, i);
      assert init[i] == units[i];
      UnitFileNamesDistinct(i, units[i].name, n, units[n].name);
    }
  }

  /** A file the units do not name keeps its content. */
  lemma {:induction false} WriteUnitsKeepsOthers(files: map<string, Content>, units: seq<CompiledUnit>, f: string)
    requires f in files && f !in UnitNames(units)
    ensures f in WriteUnits(files, units) && WriteUnits(files, units)[f] == files[f]
  {
    if units != [] {
      WriteUnitsKeepsOthers(files, units[..|units| - 1], f);
    }
  }

  /** Written into an empty directory, the units give one file each. */
  lemma {:induction false} UnitNamesCount(units: seq<CompiledUnit>)
    ensures |UnitNames(units)| == |units|
  {
    if units != [] {
      var n := |units| - 1;
      UnitNamesCount(units[..n]);
      LaterNameFresh(units[..n], n, units[n].name);
    }
  }

  // ----- `store_json`, `verify_and_store` and `apply` as state transitions -----

  /** The outcome of `MoveBuilder::build`: compiled units or compile errors. */
  datatype BuildOutput = Compiled(units: seq<CompiledUnit>) | Failed(errors: seq<Diagnostic>)

  /** `store_json`: an existing bundle file is removed first, then the
      bundle is written if the conversion succeeds. */
  function StoreJsonSpec(fs: Dirs, dir: string, name: string, ext: Externals,
                         units: seq<CompiledUnit>): (out: (Dirs, Result<()>))
    requires dir in fs
    ensures dir in out.0 && out.0.Keys == fs.Keys
    ensures out.1.Ok? <==> TryFrom(ext, units).Ok?
    ensures out.1.Ok? ==> out.0[dir] == fs[dir][name := Json(TryFrom(ext, units).value)]
    ensures out.1.Err? ==> out.1.error == TryFrom(ext, units).error && out.0[dir] == fs[dir] - {name}
    ensures forall d :: d in fs && d != dir ==> out.0[d] == fs[d]
  {
    var removed := fs[dir := fs[dir] - {name}];
    match TryFrom(ext, units)
    case Err(e) => (removed, Err(e))
    case Ok(bundle) => (removed[dir := removed[dir][name := Json(bundle)]], Ok(()))
  }

  /** Lines 89-109: with at least one module the module directory is
      emptied and refilled, either with the bundle or with one file per
      module. */
  function StoreModulesSpec(fs: Dirs, b: Build, ctx: Context, ext: Externals,
                            modules: seq<CompiledUnit>): (out: (Dirs, Result<()>))
  {
    if modules == [] then (fs, Ok(()))
    else
      var cleared := fs[ctx.moduleOutput := map[]];
      if b.json then StoreJsonSpec(cleared, ctx.moduleOutput, JsonFileName(ctx.packageName), ext, modules)
      else (cleared[ctx.moduleOutput := WriteUnits(map[], modules)], Ok(()))
  }

  /** The error `verify_and_store` reports when the verifier found problems. */
  function VerifyError(ctx: Context): Error
  {
    Message("could not verify:" + ctx.projectName)
  }

  /** The error `apply` reports when the project does not compile. */
  function CompileError(ctx: Context): Error
  {
    Message("could not compile:" + ctx.projectName)
  }

  /** `verify_and_store` as a function of the directories before the call. */
  function VerifyAndStoreSpec(fs: Dirs, b: Build, ctx: Context, ext: Externals,
                              units: seq<CompiledUnit>): (out: (Dirs, Result<()>))
  {
    var (verified, ice) := ext.verifyUnits(units);
    var (modules, scripts) := Partition(verified);
    var (fs1, stored) := StoreModulesSpec(fs, b, ctx, ext, modules);
    if stored.Err? then (fs1, stored)
    else
      var fs2 := if scripts == [] then fs1 else fs1[ctx.scriptOutput := WriteUnits(map[], scripts)];
      (fs2, if |ice| == 0 then Ok(()) else Err(VerifyError(ctx)))
  }

  /** `Cmd::apply` from the build's outcome on. */
  function ApplySpec(fs: Dirs, b: Build, ctx: Context, ext: Externals, prog: BuildOutput): (out: (Dirs, Result<()>))
  {
    match prog
    case Failed(_) => (fs, Err(CompileError(ctx)))
    case Compiled(units) => VerifyAndStoreSpec(fs, b, ctx, ext, units)
  }

  /** Whether the module bundle fails to convert, which ends
      `verify_and_store` early through `?`. */
  predicate BundleFails(b: Build, ext: Externals, modules: seq<CompiledUnit>)
  {
    b.json && modules != [] && TryFrom(ext, modules).Err?
  }

  /** `verify_and_store` fails exactly when the bundle fails to convert or
      the verifier reported an internal compiler error; the latter gives the
      `could not verify` error naming the project. */
  lemma VerifyAndStoreResult(fs: Dirs, b: Build, ctx: Context, ext: Externals, units: seq<CompiledUnit>)
    ensures var (verified, ice) := ext.verifyUnits(units);
            var modules := ModulesOf(verified);
            var r := VerifyAndStoreSpec(fs, b, ctx, ext, units).1;
            && (r.Ok? <==> !BundleFails(b, ext, modules) && |ice| == 0)
            && (BundleFails(b, ext, modules) ==> r == Err(TryFrom(ext, modules).error))
            && (!BundleFails(b, ext, modules) && |ice| > 0 ==> r == Err(VerifyError(ctx)))
  {
    PartitionKeepsOrder(ext.verifyUnits(units).0);
  }

  /** Only the two output directories can change. */
  lemma VerifyAndStoreFrame(fs: Dirs, b: Build, ctx: Context, ext: Externals, units: seq<CompiledUnit>, d: string)
    requires d != ctx.moduleOutput && d != ctx.scriptOutput
    ensures var out := VerifyAndStoreSpec(fs, b, ctx, ext, units).0;
            (d in out <==> d in fs) && (d in fs ==> out[d] == fs[d])
  {
  }

  /** An output directory is touched only when there is something to store
      in it: without modules the module directory is left as it was, and
      without scripts the script directory is. */
  lemma EmptyListsLeaveDirectories(fs: Dirs, b: Build, ctx: Context, ext: Externals, units: seq<CompiledUnit>)
    ensures var verified := ext.verifyUnits(units).0;
            var out := VerifyAndStoreSpec(fs, b, ctx, ext, units).0;
            && (ModulesOf(verified) == [] && (ScriptsOf(verified) == [] || ctx.scriptOutput != ctx.moduleOutput) ==>
                  (ctx.moduleOutput in out <==> ctx.moduleOutput in fs)
                  && (ctx.moduleOutput in fs ==> out[ctx.moduleOutput] == fs[ctx.moduleOutput]))
            && (ScriptsOf(verified) == [] && (ModulesOf(verified) == [] || ctx.scriptOutput != ctx.moduleOutput) ==>
                  (ctx.scriptOutput in out <==> ctx.scriptOutput in fs)
                  && (ctx.scriptOutput in fs ==> out[ctx.scriptOutput] == fs[ctx.scriptOutput]))
  {
    PartitionKeepsOrder(ext.verifyUnits(units).0);
  }

  /** Without `--json` the module directory ends up holding exactly one
      `.mv` file per module (unless scripts are written to the same
      directory afterwards). */
  lemma ModulesStoredAsUnits(fs: Dirs, b: Build, ctx: Context, ext: Externals, units: seq<CompiledUnit>)
    requires !b.json
    requires ModulesOf(ext.verifyUnits(units).0) != []
    requires ScriptsOf(ext.verifyUnits(units).0) == [] || ctx.scriptOutput != ctx.moduleOutput
    ensures var modules := ModulesOf(ext.verifyUnits(units).0);
            var out := VerifyAndStoreSpec(fs, b, ctx, ext, units).0;
            && ctx.moduleOutput in out
            && out[ctx.moduleOutput] == WriteUnits(map[], modules)
            && |out[ctx.moduleOutput].Keys| == |modules|
  {
    var modules := ModulesOf(ext.verifyUnits(units).0);
    PartitionKeepsOrder(ext.verifyUnits(units).0);
    WriteUnitsKeys(map[], modules);
    UnitNamesCount(modules);
    var empty: map<string, Content> := map[];
    assert empty.Keys == {};
  }

  /** With `--json` and a bundle that converts, the module directory holds
      just the bundle file. */
  lemma ModulesStoredAsBundle(fs: Dirs, b: Build, ctx: Context, ext: Externals, units: seq<CompiledUnit>)
    requires b.json
    requires ModulesOf(ext.verifyUnits(units).0) != []
    requires TryFrom(ext, ModulesOf(ext.verifyUnits(units).0)).Ok?
    requires ScriptsOf(ext.verifyUnits(units).0) == [] || ctx.scriptOutput != ctx.moduleOutput
    ensures var modules := ModulesOf(ext.verifyUnits(units).0);
            var out := VerifyAndStoreSpec(fs, b, ctx, ext, units).0;
            && ctx.moduleOutput in out
            && out[ctx.moduleOutput] == map[JsonFileName(ctx.packageName) := Json(TryFrom(ext, modules).value)]
  {
    PartitionKeepsOrder(ext.verifyUnits(units).0);
  }

  /** Scripts are stored, one `.mv` file each, whenever the module step did
      not fail; internal compiler errors do not prevent it. */
  lemma ScriptsStored(fs: Dirs, b: Build, ctx: Context, ext: Externals, units: seq<CompiledUnit>)
    requires ScriptsOf(ext.verifyUnits(units).0) != []
    requires !BundleFails(b, ext, ModulesOf(ext.verifyUnits(units).0))
    ensures var out := VerifyAndStoreSpec(fs, b, ctx, ext, units).0;
            && ctx.scriptOutput in out
            && out[ctx.scriptOutput] == WriteUnits(map[], ScriptsOf(ext.verifyUnits(units).0))
  {
    var verified := ext.verifyUnits(units).0;
    PartitionKeepsOrder(verified);
    StoreModulesSucceeds(fs, b, ctx, ext, ModulesOf(verified));
  }

  /** The module step fails only through the bundle. */
  lemma StoreModulesSucceeds(fs: Dirs, b: Build, ctx: Context, ext: Externals, modules: seq<CompiledUnit>)
    requires !BundleFails(b, ext, modules)
    ensures StoreModulesSpec(fs, b, ctx, ext, modules).1 == Ok(())
  {
  }

  /** A project that does not compile leaves every directory alone and
      reports `could not compile`; otherwise `apply` is `verify_and_store`. */
  lemma ApplyOutcome(fs: Dirs, b: Build, ctx: Context, ext: Externals, prog: BuildOutput)
    ensures prog.Failed? ==> ApplySpec(fs, b, ctx, ext, prog) == (fs, Err(CompileError(ctx)))
    ensures prog.Compiled? ==> ApplySpec(fs, b, ctx, ext, prog) == VerifyAndStoreSpec(fs, b, ctx, ext, prog.units)
  {
  }

  lemma UpdateTwice<K, V>(m: map<K, V>, k: K, v1: V, v2: V)
    ensures m[k := v1][k := v2] == m[k := v2]
  {
  }

  /** The output directories, changed in place by the command. */
  class OutputFs {
    var dirs: Dirs

    constructor (initial: Dirs)
      ensures dirs == initial
    {
      dirs := initial;
    }

    /** `fs::remove_dir_all`. */
    method RemoveDirAll(dir: string)
      modifies this
      ensures dirs == old(dirs) - {dir}
    {
      dirs := dirs - {dir};
    }

    /** `fs::create_dir_all`: an existing directory is kept as it is. */
    method CreateDirAll(dir: string)
      modifies this
      ensures dirs == if dir in old(dirs) then old(dirs) else old(dirs)[dir := map[]]
    {
      if dir !in dirs {
        dirs := dirs[dir := map[]];
      }
    }

    /** `fs::remove_file`. */
    method RemoveFile(dir: string, name: string)
      requires dir in dirs
      modifies this
      ensures dirs == old(dirs)[dir := old(dirs)[dir] - {name}]
    {
      dirs := dirs[dir := dirs[dir] - {name}];
    }

    /** `File::create` followed by a write, or `fs::write`. */
    method WriteFile(dir: string, name: string, content: Content)
      requires dir in dirs
      modifies this
      ensures dirs == old(dirs)[dir := old(dirs)[dir][name := content]]
    {
      dirs := dirs[dir := dirs[dir][name := content]];
    }

    /** Lines 90-94 (and 112-116): remove the directory if it exists, then
      create it. */
    method ClearDir(dir: string)
      modifies this
      ensures dirs == old(dirs)[dir := map[]]
    {
      if dir in dirs {
        RemoveDirAll(dir);
      }
      CreateDirAll(dir);
    }

    /** `store_units`: writes unit `i` to `"{i}_{name}.mv"`. */
    method StoreUnits(units: seq<CompiledUnit>, dir: string)
      requires dir in dirs
      modifies this
      ensures dirs == old(dirs)[dir := WriteUnits(old(dirs)[dir], units)]
    {
      ghost var before := dirs;
      ghost var files := dirs[dir];
      var i := 0;
      while i < |units|
        invariant 0 <= i <= |units|
        invariant dirs == before[dir := WriteUnits(files, units[..i])]
      {
        ghost var written := WriteUnits(files, units[..i]);
        assert units[..i + 1][..i] == units[..i];
        WriteFile(dir, UnitFileName(i, units[i].name), Binary(units[i].bytes));
        UpdateTwice(before, dir, written, written[UnitFileName(i, units[i].name) := Binary(units[i].bytes)]);
        i := i + 1;
      }
      assert units[..i] == units;
    }

    /** `store_json`. */
    method StoreJson(ext: Externals, units: seq<CompiledUnit>, dir: string, name: string) returns (r: Result<()>)
      requires dir in dirs
      modifies this
      ensures (dirs, r) == StoreJsonSpec(old(dirs), dir, name, ext, units)
    {
      if name in dirs[dir] {
        RemoveFile(dir, name);
      } else {
        assert dirs[dir] - {name} == dirs[dir];
        assert dirs[dir := dirs[dir]] == dirs;
      }
      var modules := TryFrom(ext, units);
      if modules.Err? {
        return Err(modules.error);
      }
      WriteFile(dir, name, Json(modules.value));
      r := Ok(());
    }

    /** Lines 89-109 of `verify_and_store`. */
    method StoreModules(b: Build, ctx: Context, ext: Externals, modules: seq<CompiledUnit>) returns (r: Result<()>)
      modifies this
      ensures (dirs, r) == StoreModulesSpec(old(dirs), b, ctx, ext, modules)
    {
      r := Ok(());
      if modules != [] {
        ClearDir(ctx.moduleOutput);
        if b.json {
          r := StoreJson(ext, modules, ctx.moduleOutput, JsonFileName(ctx.packageName));
        } else {
          StoreUnits(modules, ctx.moduleOutput);
        }
      }
    }

    /** `verify_and_store`. */
    method VerifyAndStore(b: Build, ctx: Context, ext: Externals, units: seq<CompiledUnit>) returns (r: Result<()>)
      modifies this
      ensures (dirs, r) == VerifyAndStoreSpec(old(dirs), b, ctx, ext, units)
    {
      var (verified, ice) := ext.verifyUnits(units);
      var (modules, scripts) := Partition(verified);
      var stored := StoreModules(b, ctx, ext, modules);
      if stored.Err? {
        return stored;
      }
      if scripts != [] {
        ghost var fs1 := dirs;
        ClearDir(ctx.scriptOutput);
        StoreUnits(scripts, ctx.scriptOutput);
        UpdateTwice(fs1, ctx.scriptOutput, map[], WriteUnits(map[], scripts));
      }
      if |ice| > 0 {
        r := Err(VerifyError(ctx));
      } else {
        r := Ok(());
      }
    }

    /** `Cmd::apply` once the project has been built. */
    method Apply(b: Build, ctx: Context, ext: Externals, prog: BuildOutput) returns (r: Result<()>)
      modifies this
      ensures (dirs, r) == ApplySpec(old(dirs), b, ctx, ext, prog)
    {
      match prog
      case Failed(_) =>
        r := Err(CompileError(ctx));
      case Compiled(units) =>
        r := VerifyAndStore(b, ctx, ext, units);
    }
  }
}
