# Pontem dialect and `dove build`, modelled in Dafny

This project models four files of the move-tools repository:

- **The dialect registry** (`lang/src/compiler/dialects/mod.rs`).
  - `DialectName` has three names. Parsing them is exact and case-sensitive; anything else is rejected with `Invalid dialect "<input>"`.
  - `get_dialect` maps each name to a dialect object.
- **The Pontem dialect** (`lang/src/compiler/dialects/pontem.rs`).
  - `parse_address` tries the SS58 decoder first. When that fails it tries a `0x` hex literal; otherwise it rejects the input.
  - Every failure is wrapped in a context that quotes the literal.
  - `replace_addresses` always returns an owned string, produced by the SS58 rewriter.
- **The older `PontemDialect`** (`lang/src/compiler/dialects/pontem/mod.rs`).
  - Its byte adapters do nothing.
  - `normalize_account_address` wraps the SS58 decoder.
  - Its gas schedule is built from two lists:
    - a list of 63 instruction costs;
    - a list of 31 native costs, sorted in place by native index (`sort_by_key`) and then projected onto the costs.
- **The `dove build` command** (`dove/src/cmd/build.rs`).
  - Internal compiler errors from verification do not stop the storing, but they still make the command fail.
  - Verified units are partitioned into modules and scripts.
  - Modules replace the module output directory's contents:
    - without `--json`, as one `"{i}_{name}.mv"` file per module;
    - with `--json`, as a single bundle of `{address, access_vector, bytecode}` entries, hex-encoded.
  - Scripts replace the script output directory's contents.

Modules and their contents:

- `Wrappers`: `Result`, `Option`, and anyhow-style errors with `with_context`.
- `Fmt`: the `{:?}` rendering of a string, and `{}` of a number, each with its inverse.
- `Hex`: `hex::encode`, with a decoder.
- `Paths`: `Path::set_extension`.
- `MoveTypes`: addresses, opcodes, native cost indices and cost tables.
- `SortByKey`: the stable in-place sort.
- `DialectTrait`, `Dialects`, `Pontem`, `PontemLegacy` and `BuildCmd`: the four files above.

Functions from outside these files are parameters of the model, gathered in `Externals` records:

- the SS58 decoder and rewriter;
- `AccountAddress::from_hex_literal`;
- `mvm::gas_schedule::cost_table`;
- `Identifier::new` and `AccessPath::from`;
- `compiled_unit::verify_units`.

The filesystem is the class `BuildCmd.OutputFs`. Its state is a map from directory to a map from file name to content. Each method of `OutputFs` is proved equal to a specification function over that map: `StoreJsonSpec`, `StoreModulesSpec`, `VerifyAndStoreSpec` and `ApplySpec`. The lemmas about the command's behaviour are stated over those functions.

Internal compiler errors do not stop storing: `verify_and_store` writes the module and script directories first and returns `could not verify:<project>` afterwards (`BuildCmd.VerifyAndStoreResult`, `BuildCmd.ScriptsStored`). The one exception is a JSON bundle that fails to convert: that error is returned at once (dove/src/cmd/build.rs:105).

## Model

| member | source | states |
|---|---|---|
| Dialects.FromStr | lang/src/compiler/dialects/mod.rs:53-60 | succeeds exactly on `libra`, `dfinance`, `pontem`; the parsed name's textual form is the input; any other input gives `Invalid dialect {:?}` of it |
| Dialects.FromStrRoundTrip | lang/src/compiler/dialects/mod.rs:32-38 | the lowercase serde name of every variant parses back to that variant |
| Dialects.FromStrAcceptsOnlyNames | lang/src/compiler/dialects/mod.rs:54-58 | a string is accepted iff it is some variant's name |
| Dialects.FromStrIsCaseSensitive | lang/src/compiler/dialects/mod.rs:54-58 | the match is exact: `Pontem`, ` pontem`, `LIBRA`, `DFinance`, `diem` are rejected |
| Dialects.FromStrErrorNamesInput | lang/src/compiler/dialects/mod.rs:58 | the rejected input can be read back out of the error message |
| Dialects.GetDialect | lang/src/compiler/dialects/mod.rs:41-47 | `Libra` selects the Diem dialect, `DFinance` the DFinance dialect, `Pontem` the Pontem dialect object |
| Dialects.PontemNameSelectsPontem | lang/src/compiler/dialects/mod.rs:45 | the dialect `get_dialect(Pontem)` returns reports the name `pontem`, which parses back to `Pontem` |
| Wrappers.WithContext | lang/src/compiler/dialects/pontem.rs:29-30 | `with_context` keeps success and its value, and wraps an error in the given context over the original error, keeping its root cause |
| Pontem.ParseAddress | lang/src/compiler/dialects/pontem.rs:19-31 | every failure is a context error whose message is `Address {:?} is not a valid diem/pontem address` |
| Pontem.Ss58TakesPrecedence | lang/src/compiler/dialects/pontem.rs:20-21 | if the SS58 decoder accepts the literal, the result is `from_hex_literal` of its hex form, even when the literal also starts with `0x` |
| Pontem.HexFallback | lang/src/compiler/dialects/pontem.rs:22-28 | without an SS58 reading, a `0x` literal gets exactly `from_hex_literal`'s result, and anything else gets the fixed rejection message, each wrapped in the context |
| Pontem.ParseAddressSucceeds | lang/src/compiler/dialects/pontem.rs:19-31 | the result is `Ok(a)` iff the SS58 path yields `a`, or the SS58 decoder fails, the literal starts with `0x` and hex parsing yields `a` |
| Pontem.ParseAddressErrorNamesLiteral | lang/src/compiler/dialects/pontem.rs:30 | the literal can be read back out of every failure's context |
| Pontem.ReplaceAddresses | lang/src/compiler/dialects/pontem.rs:37-39 | the text is always `Cow::Owned` and, with the updated offset map, is what the SS58 rewriter returned |
| Pontem.AsDialect | lang/src/compiler/dialects/pontem.rs:14-40 | the dialect object's name is `pontem`, its cost table is the VM's `cost_table()`, and its two operations are `ParseAddress` and `ReplaceAddresses` |
| PontemLegacy.NameSelectsPontem | lang/src/compiler/dialects/pontem/mod.rs:14-16 | the older dialect reports the same name as `pontem.rs`, which the registry parses to `Pontem` |
| PontemLegacy.AdaptToTarget | lang/src/compiler/dialects/pontem/mod.rs:18-21 | always succeeds and leaves the buffer unchanged |
| PontemLegacy.AdaptToBasis | lang/src/compiler/dialects/pontem/mod.rs:23-26 | always succeeds and leaves the buffer unchanged |
| PontemLegacy.AdaptRoundTrip | lang/src/compiler/dialects/pontem/mod.rs:18-26 | adapting to the target and back restores the bytes |
| PontemLegacy.NormalizeAccountAddress | lang/src/compiler/dialects/pontem/mod.rs:28-31 | succeeds iff the SS58 decoder does, with its address; on failure the decoder's error sits under a context naming the address |
| PontemLegacy.NormalizeErrorNamesAddress | lang/src/compiler/dialects/pontem/mod.rs:30 | the address can be read back out of the failure's context |
| PontemLegacy.InstructionListed | lang/src/compiler/dialects/pontem/mod.rs:61-170 | every opcode has an entry in the instruction cost list |
| PontemLegacy.InstructionsDistinct | lang/src/compiler/dialects/pontem/mod.rs:61-170 | no opcode has two entries |
| PontemLegacy.InstructionTableListsEachOpcodeOnce | lang/src/compiler/dialects/pontem/mod.rs:61-170 | the list has 63 entries and names each opcode exactly once |
| PontemLegacy.GenericCostsMatch | lang/src/compiler/dialects/pontem/mod.rs:61-170 | each `*Generic` instruction costs exactly what its non-generic counterpart costs (e.g. `MoveTo`/`MoveToGeneric` 825, `MoveFrom`/`MoveFromGeneric` 917, `Exists`/`ExistsGeneric` 856) |
| PontemLegacy.InstructionMemoryCosts | lang/src/compiler/dialects/pontem/mod.rs:61-170 | every instruction has memory cost 1, except the four global borrows, which cost (1000, 3) |
| PontemLegacy.NativeTableListsEachIndexOnce | lang/src/compiler/dialects/pontem/mod.rs:172-204 | the native list has 31 entries and each native index sits at exactly one position |
| PontemLegacy.NativeCost | lang/src/compiler/dialects/pontem/mod.rs:172-204 | the cost given for a native index is the one paired with it in the list |
| PontemLegacy.Costs | lang/src/compiler/dialects/pontem/mod.rs:206-209 | the projection keeps the length and takes each entry's cost in order |
| PontemLegacy.CostsPermutation | lang/src/compiler/dialects/pontem/mod.rs:205-209 | projecting two rearrangements of the same entries gives rearrangements of the same costs |
| PontemLegacy.RawNativeTable | lang/src/compiler/dialects/pontem/mod.rs:172-209 | copying the list into a buffer, sorting it in place by native index and projecting gives exactly the costs of the stably sorted list |
| PontemLegacy.SortedNativeCostsProperties | lang/src/compiler/dialects/pontem/mod.rs:205-209 | the raw native table has 31 costs, is a rearrangement of the declared costs, sorted by native index, with entries of equal index kept in list order |
| PontemLegacy.NativeCostAtDiscriminant | lang/src/compiler/dialects/pontem/mod.rs:205-210 | when the discriminants number the natives 0-30, the raw native table holds each native's declared cost at its discriminant |
| PontemLegacy.InitialGasSchedule | lang/src/compiler/dialects/pontem/mod.rs:51-211 | the schedule is built from the instruction list as declared and the sorted native costs |
| PontemLegacy.GasCostTable | lang/src/compiler/dialects/pontem/mod.rs:33-35 | `cost_table` returns a copy of the initial schedule |
| SortByKey.InsertLast | lang/src/compiler/dialects/pontem/mod.rs:205 | one insertion step: the prefix with the next element inserted after all elements of no greater key, the rest of the buffer unchanged |
| SortByKey.SortInPlace | lang/src/compiler/dialects/pontem/mod.rs:205 | `sort_by_key` leaves the buffer equal to the stable sort of its old contents |
| SortByKey.StableSortCorrect | lang/src/compiler/dialects/pontem/mod.rs:205 | the stable sort is ordered by key, a permutation, and keeps the relative order of equal keys |
| SortByKey.StableSortUnique | lang/src/compiler/dialects/pontem/mod.rs:205 | any key-ordered rearrangement that keeps equal keys in order is the stable sort, so the choice of algorithm does not matter |
| SortByKey.StableSortPlacesByKey | lang/src/compiler/dialects/pontem/mod.rs:205 | with distinct keys below the length, each element lands at the position equal to its key |
| Fmt.DebugStrRoundTrip | lang/src/compiler/dialects/mod.rs:58 | the `{:?}` rendering of a string is quoted and can be parsed back to the string |
| Fmt.DebugStrInjective | lang/src/compiler/dialects/pontem.rs:30 | distinct strings render differently under `{:?}` |
| Fmt.NatToStringRoundTrip | dove/src/cmd/build.rs:132 | the decimal rendering of the unit index parses back to the index |
| Fmt.NatToStringInjective | dove/src/cmd/build.rs:132 | distinct indices render differently |
| Hex.Encode | dove/src/cmd/build.rs:61-62 | `hex::encode` gives two lowercase hex digits per byte |
| Hex.DecodeEncode | dove/src/cmd/build.rs:61-62 | hex decoding inverts `hex::encode` |
| Hex.EncodeInjective | dove/src/cmd/build.rs:61-62 | distinct byte strings encode differently |
| Paths.SetExtension | dove/src/cmd/build.rs:133 | `set_extension(ext)` gives a name ending in `.ext`; `Paths.SetExtensionNoDot` and `Paths.SetExtensionReplaces` give the whole result |
| Paths.SetExtensionNoDot | dove/src/cmd/build.rs:97-100 | a dot-free name just gains `.ext` |
| Paths.SetExtensionReplaces | dove/src/cmd/build.rs:98-99 | for `p.e` with a dot-free `e`, `set_extension(ext)` keeps the stem `p` and replaces `e` with `ext` |
| Paths.SetExtensionKeepsPrefix | dove/src/cmd/build.rs:132-133 | a non-empty, dot-free leading part of the name survives `set_extension` |
| BuildCmd.ModuleEntryOf | dove/src/cmd/build.rs:51-65 | a module converts iff its name is a valid identifier; otherwise the identifier error is returned |
| BuildCmd.ModuleEntryDecodes | dove/src/cmd/build.rs:56-63 | an entry carries the access path's address, and hex texts that decode to the access-path bytes and to the module's serialized bytes |
| BuildCmd.TryFrom | dove/src/cmd/build.rs:45-73 | on success the bundle has one entry per module unit |
| BuildCmd.TryFromSucceedsIff | dove/src/cmd/build.rs:48-69 | conversion succeeds iff every module's name is a valid identifier |
| BuildCmd.TryFromEntries | dove/src/cmd/build.rs:49-69 | on success entry `k` is the conversion of the `k`-th module, in input order |
| BuildCmd.TryFromFirstError | dove/src/cmd/build.rs:69 | on failure the error is that of the first module whose name is rejected; all earlier modules were accepted |
| BuildCmd.TryFromIgnoresScripts | dove/src/cmd/build.rs:66 | scripts do not affect the bundle |
| BuildCmd.ModulesOf | dove/src/cmd/build.rs:85-87 | the modules selected are module units taken from the input |
| BuildCmd.ScriptsOf | dove/src/cmd/build.rs:85-87 | the scripts selected are script units taken from the input |
| BuildCmd.Partition | dove/src/cmd/build.rs:85-87 | the left side holds only modules and the right only scripts |
| BuildCmd.PartitionKeepsOrder | dove/src/cmd/build.rs:85-87 | the two sides are exactly the modules and the scripts, each in input order |
| BuildCmd.PartitionIsSplit | dove/src/cmd/build.rs:85-87 | every unit lands on exactly one side (multisets and lengths add up) |
| BuildCmd.UnitFileName | dove/src/cmd/build.rs:132-133 | a unit's file name starts with its index and `_` and ends in `.mv`; for a dot-free name (every Move identifier is one) it is exactly `{index}_{name}.mv` |
| BuildCmd.UnitFileNamesDistinct | dove/src/cmd/build.rs:131-133 | units at different indices never share a file name, whatever their names |
| BuildCmd.JsonFileName | dove/src/cmd/build.rs:97-103 | the bundle's file name ends in `.json` |
| BuildCmd.JsonFileNames | dove/src/cmd/build.rs:97-103 | no package name gives `modules.json`; a dot-free name `n` gives `n.json` |
| BuildCmd.JsonFileNameDropsSuffix | dove/src/cmd/build.rs:98-99 | a package name `p.e` with a dot-free `e` gives the bundle file `p.json`: the text after the last dot is replaced |
| BuildCmd.JsonFileNameOfDottedPackage | dove/src/cmd/build.rs:98-99 | the package name `coins.v2` gives the bundle file `coins.json` |
| BuildCmd.WriteUnits | dove/src/cmd/build.rs:130-137 | storing units never removes a file |
| BuildCmd.UnitNames | dove/src/cmd/build.rs:131-133 | the last unit's file name is among the names written |
| BuildCmd.WriteUnitsKeys | dove/src/cmd/build.rs:130-137 | storing adds exactly the units' file names to the directory |
| BuildCmd.WriteUnitsFiles | dove/src/cmd/build.rs:131-134 | each unit's file holds that unit's serialized bytes |
| BuildCmd.WriteUnitsKeepsOthers | dove/src/cmd/build.rs:130-137 | a file the units do not name keeps its content |
| BuildCmd.UnitNamesCount | dove/src/cmd/build.rs:131-133 | `n` units give `n` distinct files |
| BuildCmd.StoreJsonSpec | dove/src/cmd/build.rs:139-147 | the old bundle file is removed; the call succeeds iff the conversion does; on success the directory gains the bundle, on failure the conversion's error is returned; other directories are untouched |
| BuildCmd.StoreModulesSucceeds | dove/src/cmd/build.rs:89-109 | the module step can fail only when `--json` is set, there are modules and their bundle does not convert |
| BuildCmd.VerifyAndStoreResult | dove/src/cmd/build.rs:78-128 | `verify_and_store` fails iff the bundle conversion fails or the verifier reported errors; the bundle error comes first, otherwise `could not verify:<project>` |
| BuildCmd.VerifyAndStoreFrame | dove/src/cmd/build.rs:78-128 | only the module and script output directories can change |
| BuildCmd.EmptyListsLeaveDirectories | dove/src/cmd/build.rs:89-119 | with no modules the module directory is left as it was, and with no scripts the script directory is |
| BuildCmd.ModulesStoredAsUnits | dove/src/cmd/build.rs:89-108 | without `--json` the module directory holds exactly one `.mv` file per module |
| BuildCmd.ModulesStoredAsBundle | dove/src/cmd/build.rs:96-105 | with `--json` and a convertible bundle the module directory holds only the bundle file |
| BuildCmd.ScriptsStored | dove/src/cmd/build.rs:111-119 | unless the bundle failed, the script directory holds the scripts' files, even when verification reported errors |
| BuildCmd.ApplyOutcome | dove/src/cmd/build.rs:169-176 | a failed build changes nothing and gives `could not compile:<project>`; a successful one is `verify_and_store` |
| BuildCmd.OutputFs.RemoveDirAll | dove/src/cmd/build.rs:92 | the directory and its files are gone; nothing else changes |
| BuildCmd.OutputFs.CreateDirAll | dove/src/cmd/build.rs:94 | the directory exists afterwards; an existing one is kept as it is |
| BuildCmd.OutputFs.RemoveFile | dove/src/cmd/build.rs:141 | the file is gone from its directory; nothing else changes |
| BuildCmd.OutputFs.WriteFile | dove/src/cmd/build.rs:134 | the file holds the given content; nothing else changes |
| BuildCmd.OutputFs.ClearDir | dove/src/cmd/build.rs:90-94 | the directory exists and is empty; nothing else changes |
| BuildCmd.OutputFs.StoreUnits | dove/src/cmd/build.rs:130-137 | the loop leaves the directory as `WriteUnits` describes and changes no other directory |
| BuildCmd.OutputFs.StoreJson | dove/src/cmd/build.rs:139-147 | directories and result are as `StoreJsonSpec` describes |
| BuildCmd.OutputFs.StoreModules | dove/src/cmd/build.rs:89-109 | directories and result are as the module step's specification describes |
| BuildCmd.OutputFs.VerifyAndStore | dove/src/cmd/build.rs:78-128 | directories and result are as `verify_and_store`'s specification describes, including the early return on a bundle error |
| BuildCmd.OutputFs.Apply | dove/src/cmd/build.rs:150-177 | directories and result are as `apply`'s specification describes, from the build's outcome on |

## Left out

- Pontem externals: `ss58_to_libra`, `ss58_to_address`, `replace_ss58_addresses`, `from_hex_literal` and the VM's `cost_table()` are not part of this model. They are parameters, so nothing is stated about SS58 decoding itself.
- Fmt.DebugStr: escapes only `"`, `\`, newline, carriage return, tab and NUL. Rust's `{:?}` also escapes other control and non-printable characters as `\u{..}`, which the model does not render.
- Fmt.NatToString: renders `usize` indices without a width limit.
- PontemLegacy.ReplaceAddresses: no contract. The function only forwards its arguments to the SS58 rewriter, which is a parameter, so there is nothing further to state.
- `MutString` and `FileOffsetMap`: opaque types; their contents are not part of this model.
- Diem and DFinance dialects: `diem.rs` and `dfinance.rs` are not part of this model. `get_dialect` receives their dialect objects as values.
- The `dialects/mod.rs` trait versus the `pontem/mod.rs` dialect: the two declare different `Dialect` traits (`name`/`parse_address`/`cost_table`/`replace_addresses` versus byte adapters, `normalize_account_address` and a `MutString` rewriter). Each is modelled as written, in separate modules.
- PontemLegacy.NativeCostAtDiscriminant: the numeric discriminants of `NativeCostIndex` are declared outside these files. They are a parameter, and the lemma assumes they number the natives 0 to 30 without repeats.
- Instruction operands: the placeholder operands (`StructDefinitionIndex::new(0)` and so on) are dropped; opcodes are compared by kind.
- PontemLegacy.InitialGasSchedule: `new_from_instructions` is represented by the two lists it receives. How it indexes them is not part of this model.
- `Lazy` initialisation: `INITIAL_GAS_SCHEDULE` is computed on each call, because initialising it once has no observable effect on its value.
- `CompiledUnit::serialize` and `CompiledUnit::name`: represented by the unit's `bytes` and `name` fields.
- `Identifier::new`, `AccessPath::from(&ModuleId::new(..))` and `verify_units`: parameters.
- Bundle rendering: the JSON bundle is stored as a structured value; `serde_json::to_string_pretty` and its text are not part of this model.
- Filesystem failures: every `?` on a filesystem call is taken to succeed. Disk and permission errors, and errors from `serde_json`, are not modelled.
- Directory nesting: directories are independent entries. The model does not capture one output directory containing the other, nor `ctx.path_for` resolving paths.
- BuildCmd.JsonFileName and BuildCmd.UnitFileName: do not model names that are empty, `..`, or contain `/`. For such names `join` and `set_extension` behave differently on real paths.
- Diagnostics printing: `output_errors` writes diagnostics to standard error; it is I/O and is left out.
- BuildCmd.OutputFs.Apply: covers `apply` from the build's outcome on. The steps before the build (`build_index`, `make_dependency_set`, `load_dependencies`, `load_move_files`, `account_address`) and their errors are not modelled. `MoveBuilder::build` is represented by its outcome, a `BuildOutput` parameter.
- Other files: the disassembler binary and the executor tests are not part of this model.
