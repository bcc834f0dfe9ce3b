/** The older `PontemDialect` of `lang/src/compiler/dialects/pontem/mod.rs`.
    It implements a different shape of the `Dialect` trait from the one
    `dialects/mod.rs` declares (byte adapters, address normalisation,
    rewriting through a `MutString`) and carries its own gas schedule, built
    from an instruction cost list and a native cost list that is sorted by
    native index in place and then projected onto its costs. */
module PontemLegacy {
  import opened Wrappers
  import opened Fmt
  import opened Hex
  import opened MoveTypes
  import opened SortByKey
  import DialectTrait
  import Dialects
  import Pontem

  /** `crate::compiler::mut_string::MutString`; its structure is not part of
      this model. */
  type MutString(!new)

  /** The functions `pontem/mod.rs` calls but does not define. */
  datatype Externals = Externals(
    /** `address::ss58::ss58_to_address`. */
    ss58ToAddress: string -> Result<AccountAddress>,
    /** `address::ss58::replace_ss58_addresses`: the updated `MutString`
        and offset map, both of which it receives by `&mut`. */
    replaceSs58Addresses: (string, MutString, DialectTrait.FileOffsetMap)
                          -> (MutString, DialectTrait.FileOffsetMap))

  function Name(): string { "pontem" }

  /** Both Pontem files report the name the registry maps back to `Pontem`. */
  lemma NameSelectsPontem()
    ensures Name() == Pontem.Name()
    ensures Dialects.FromStr(Name()) == Ok(Dialects.Pontem)
  {
  }

  /** `adapt_to_target`: succeeds and leaves the buffer as it was. The
      buffer is passed by `&mut`, so the result pairs the outcome with the
      buffer's new contents. */
  function AdaptToTarget(buffer: seq<byte>): (r: (Result<()>, seq<byte>))
    ensures r.0.Ok? && r.1 == buffer
  {
    (Ok(()), buffer)
  }

  /** `adapt_to_basis`: succeeds and leaves the buffer as it was. */
  function AdaptToBasis(buffer: seq<byte>): (r: (Result<()>, seq<byte>))
    ensures r.0.Ok? && r.1 == buffer
  {
    (Ok(()), buffer)
  }

  /** Adapting to the target and back to the basis restores the bytes. */
  lemma AdaptRoundTrip(buffer: seq<byte>)
    ensures AdaptToBasis(AdaptToTarget(buffer).1) == (Ok(()), buffer)
  {
  }

  function NormalizeContext(addr: string): string
  {
    "Address " + DebugStr(addr) + " is not a valid libra/polkadot address"
  }

  /** `normalize_account_address`: the SS58 decoder's result, with failures
      wrapped in a context that names the address. */
  function NormalizeAccountAddress(ext: Externals, addr: string): (r: Result<AccountAddress>)
    ensures r.Ok? <==> ext.ss58ToAddress(addr).Ok?
    ensures r.Ok? ==> r.value == ext.ss58ToAddress(addr).value
    ensures r.Err? ==> r.error == Context(NormalizeContext(addr), ext.ss58ToAddress(addr).error)
  {
    WithContext(ext.ss58ToAddress(addr), NormalizeContext(addr))
  }

  lemma NormalizeErrorNamesAddress(ext: Externals, addr: string)
    requires NormalizeAccountAddress(ext, addr).Err?
    ensures QuotedBetween("Address ", " is not a valid libra/polkadot address",
                          NormalizeAccountAddress(ext, addr).error.context) == Some(addr)
  {
    QuotedBetweenRoundTrip("Address ", addr, " is not a valid libra/polkadot address");
  }

  /** `replace_addresses`: pure delegation to the SS58 rewriter, which
      updates the `MutString` and the offset map. */
  function ReplaceAddresses(ext: Externals, sourceText: string, mutStr: MutString,
                            sourceMap: DialectTrait.FileOffsetMap): (MutString, DialectTrait.FileOffsetMap)
  {
    ext.replaceSs58Addresses(sourceText, mutStr, sourceMap)
  }

  // ----- INITIAL_GAS_SCHEDULE: the instruction cost list -----

  /** The instruction cost list of lines 61-170, in source order (written
      as groups of eight, which the verifier indexes more cheaply). */
  function InstructionTable(): seq<(Opcode, GasCost)>
  {
    (([ (MoveTo, GasCost(825, 1)),
      (MoveToGeneric, GasCost(825, 1)),
      (MoveFrom, GasCost(917, 1)),
      (MoveFromGeneric, GasCost(917, 1)),
      (BrTrue, GasCost(31, 1)),
      (WriteRef, GasCost(65, 1)),
      (Mul, GasCost(41, 1)),
      (MoveLoc, GasCost(41, 1)) ] +
    [ (And, GasCost(49, 1)),
      (Pop, GasCost(27, 1)),
      (BitAnd, GasCost(44, 1)),
      (ReadRef, GasCost(51, 1)),
      (Sub, GasCost(44, 1)),
      (MutBorrowField, GasCost(58, 1)),
      (MutBorrowFieldGeneric, GasCost(58, 1)),
      (ImmBorrowField, GasCost(58, 1)) ])+
    ([ (ImmBorrowFieldGeneric, GasCost(58, 1)),
      (Add, GasCost(45, 1)),
      (CopyLoc, GasCost(41, 1)),
      (StLoc, GasCost(28, 1)),
      (Ret, GasCost(28, 1)),
      (Lt, GasCost(49, 1)),
      (LdU8, GasCost(29, 1)),
      (LdU64, GasCost(29, 1)) ] +
    [ (LdU128, GasCost(29, 1)),
      (CastU8, GasCost(29, 1)),
      (CastU64, GasCost(29, 1)),
      (CastU128, GasCost(29, 1)),
      (Abort, GasCost(39, 1)),
      (MutBorrowLoc, GasCost(45, 1)),
      (ImmBorrowLoc, GasCost(45, 1)),
      (LdConst, GasCost(36, 1)) ]))+
    (([ (Ge, GasCost(46, 1)),
      (Xor, GasCost(46, 1)),
      (Shl, GasCost(46, 1)),
      (Shr, GasCost(46, 1)),
      (Neq, GasCost(51, 1)),
      (Not, GasCost(35, 1)),
      (Call, GasCost(197, 1)),
      (CallGeneric, GasCost(197, 1)) ] +
    [ (Le, GasCost(47, 1)),
      (Branch, GasCost(10, 1)),
      (Unpack, GasCost(94, 1)),
      (UnpackGeneric, GasCost(94, 1)),
      (Or, GasCost(43, 1)),
      (LdFalse, GasCost(30, 1)),
      (LdTrue, GasCost(29, 1)),
      (Mod, GasCost(42, 1)) ])+
    ([ (BrFalse, GasCost(29, 1)),
      (Exists, GasCost(856, 1)),
      (ExistsGeneric, GasCost(856, 1)),
      (BitOr, GasCost(45, 1)),
      (FreezeRef, GasCost(10, 1)),
      (MutBorrowGlobal, GasCost(1000, 3)),
      (MutBorrowGlobalGeneric, GasCost(1000, 3)),
      (ImmBorrowGlobal, GasCost(1000, 3)) ] +
    [ (ImmBorrowGlobalGeneric, GasCost(1000, 3)),
      (Div, GasCost(41, 1)),
      (Eq, GasCost(48, 1)),
      (Gt, GasCost(46, 1)),
      (Pack, GasCost(73, 1)),
      (PackGeneric, GasCost(73, 1)),
      (Nop, GasCost(10, 1)) ]))
  }

  predicate IsGlobalBorrow(op: Opcode)
  {
    op in {MutBorrowGlobal, MutBorrowGlobalGeneric, ImmBorrowGlobal, ImmBorrowGlobalGeneric}
  }

  /** The non-generic counterpart of a `*Generic` opcode. */
  function GenericBase(op: Opcode): Option<Opcode>
  {
    match op
    case MoveToGeneric => Some(MoveTo)
    case MoveFromGeneric => Some(MoveFrom)
    case MutBorrowFieldGeneric => Some(MutBorrowField)
    case ImmBorrowFieldGeneric => Some(ImmBorrowField)
    case CallGeneric => Some(Call)
    case UnpackGeneric => Some(Unpack)
    case ExistsGeneric => Some(Exists)
    case MutBorrowGlobalGeneric => Some(MutBorrowGlobal)
    case ImmBorrowGlobalGeneric => Some(ImmBorrowGlobal)
    case PackGeneric => Some(Pack)
    case _ => None
  }

  /** `t` has an entry for `op`. */
  ghost predicate Lists(t: seq<(Opcode, GasCost)>, op: Opcode)
  {
    exists i :: 0 <= i < |t| && t[i].0 == op
  }

  /** No opcode has two entries in `t`. */
  predicate OpcodesDistinct(t: seq<(Opcode, GasCost)>)
  {
    forall i, j :: 0 <= i < j < |t| ==> t[i].0 != t[j].0
  }

  /** The list names every opcode. */
  lemma InstructionListed(op: Opcode)
    ensures exists i :: 0 <= i < |InstructionTable()| && InstructionTable()[i].0 == op
  {
    match op {
      case MoveTo => assert InstructionTable()[0].0 == MoveTo;
      case MoveToGeneric => assert InstructionTable()[1].0 == MoveToGeneric;
      case MoveFrom => assert InstructionTable()[2].0 == MoveFrom;
      case MoveFromGeneric => assert InstructionTable()[3].0 == MoveFromGeneric;
      case BrTrue => assert InstructionTable()[4].0 == BrTrue;
      case WriteRef => assert InstructionTable()[5].0 == WriteRef;
      case Mul => assert InstructionTable()[6].0 == Mul;
      case MoveLoc => assert InstructionTable()[7].0 == MoveLoc;
      case And => assert InstructionTable()[8].0 == And;
      case Pop => assert InstructionTable()[9].0 == Pop;
      case BitAnd => assert InstructionTable()[10].0 == BitAnd;
      case ReadRef => assert InstructionTable()[11].0 == ReadRef;
      case Sub => assert InstructionTable()[12].0 == Sub;
      case MutBorrowField => assert InstructionTable()[13].0 == MutBorrowField;
      case MutBorrowFieldGeneric => assert InstructionTable()[14].0 == MutBorrowFieldGeneric;
      case ImmBorrowField => assert InstructionTable()[15].0 == ImmBorrowField;
      case ImmBorrowFieldGeneric => assert InstructionTable()[16].0 == ImmBorrowFieldGeneric;
      case Add => assert InstructionTable()[17].0 == Add;
      case CopyLoc => assert InstructionTable()[18].0 == CopyLoc;
      case StLoc => assert InstructionTable()[19].0 == StLoc;
      case Ret => assert InstructionTable()[20].0 == Ret;
      case Lt => assert InstructionTable()[21].0 == Lt;
      case LdU8 => assert InstructionTable()[22].0 == LdU8;
      case LdU64 => assert InstructionTable()[23].0 == LdU64;
      case LdU128 => assert InstructionTable()[24].0 == LdU128;
      case CastU8 => assert InstructionTable()[25].0 == CastU8;
      case CastU64 => assert InstructionTable()[26].0 == CastU64;
      case CastU128 => assert InstructionTable()[27].0 == CastU128;
      case Abort => assert InstructionTable()[28].0 == Abort;
      case MutBorrowLoc => assert InstructionTable()[29].0 == MutBorrowLoc;
      case ImmBorrowLoc => assert InstructionTable()[30].0 == ImmBorrowLoc;
      case LdConst => assert InstructionTable()[31].0 == LdConst;
      case Ge => assert InstructionTable()[32].0 == Ge;
      case Xor => assert InstructionTable()[33].0 == Xor;
      case Shl => assert InstructionTable()[34].0 == Shl;
      case Shr => assert InstructionTable()[35].0 == Shr;
      case Neq => assert InstructionTable()[36].0 == Neq;
      case Not => assert InstructionTable()[37].0 == Not;
      case Call => assert InstructionTable()[38].0 == Call;
      case CallGeneric => assert InstructionTable()[39].0 == CallGeneric;
      case Le => assert InstructionTable()[40].0 == Le;
      case Branch => assert InstructionTable()[41].0 == Branch;
      case Unpack => assert InstructionTable()[42].0 == Unpack;
      case UnpackGeneric => assert InstructionTable()[43].0 == UnpackGeneric;
      case Or => assert InstructionTable()[44].0 == Or;
      case LdFalse => assert InstructionTable()[45].0 == LdFalse;
      case LdTrue => assert InstructionTable()[46].0 == LdTrue;
      case Mod => assert InstructionTable()[47].0 == Mod;
      case BrFalse => assert InstructionTable()[48].0 == BrFalse;
      case Exists => assert InstructionTable()[49].0 == Exists;
      case ExistsGeneric => assert InstructionTable()[50].0 == ExistsGeneric;
      case BitOr => assert InstructionTable()[51].0 == BitOr;
      case FreezeRef => assert InstructionTable()[52].0 == FreezeRef;
      case MutBorrowGlobal => assert InstructionTable()[53].0 == MutBorrowGlobal;
      case MutBorrowGlobalGeneric => assert InstructionTable()[54].0 == MutBorrowGlobalGeneric;
      case ImmBorrowGlobal => assert InstructionTable()[55].0 == ImmBorrowGlobal;
      case ImmBorrowGlobalGeneric => assert InstructionTable()[56].0 == ImmBorrowGlobalGeneric;
      case Div => assert InstructionTable()[57].0 == Div;
      case Eq => assert InstructionTable()[58].0 == Eq;
      case Gt => assert InstructionTable()[59].0 == Gt;
      case Pack => assert InstructionTable()[60].0 == Pack;
      case PackGeneric => assert InstructionTable()[61].0 == PackGeneric;
      case Nop => assert InstructionTable()[62].0 == Nop;
    }
  }

  // The distinctness of the 63 opcodes, split by position into parts the
  // verifier checks quickly; `InstructionsDistinct` combines them.

  lemma DistinctFrom0()
    ensures forall i, j :: 0 <= i < 15 && 0 <= j < i ==> InstructionTable()[i].0 != InstructionTable()[j].0
  {
  }

  lemma DistinctFrom15()
    ensures forall i, j :: 15 <= i < 22 && 0 <= j < i ==> InstructionTable()[i].0 != InstructionTable()[j].0
  {
  }

  lemma DistinctFrom22()
    ensures forall i, j :: 22 <= i < 27 && 0 <= j < i ==> InstructionTable()[i].0 != InstructionTable()[j].0
  {
  }

  lemma DistinctFrom27()
    ensures forall i, j :: 27 <= i < 31 && 0 <= j < i ==> InstructionTable()[i].0 != InstructionTable()[j].0
  {
  }

  lemma DistinctFrom31()
    ensures forall i, j :: 31 <= i < 35 && 0 <= j < i ==> InstructionTable()[i].0 != InstructionTable()[j].0
  {
  }

  lemma DistinctFrom35()
    ensures forall i, j :: 35 <= i < 38 && 0 <= j < i ==> InstructionTable()[i].0 != InstructionTable()[j].0
  {
  }

  lemma DistinctFrom38()
    ensures forall i, j :: 38 <= i < 41 && 0 <= j < i ==> InstructionTable()[i].0 != InstructionTable()[j].0
  {
  }

  lemma DistinctFrom41()
    ensures forall i, j :: 41 <= i < 44 && 0 <= j < i ==> InstructionTable()[i].0 != InstructionTable()[j].0
  {
  }

  lemma DistinctFrom44()
    ensures forall i, j :: 44 <= i < 47 && 0 <= j < i ==> InstructionTable()[i].0 != InstructionTable()[j].0
  {
  }

  lemma DistinctFrom47()
    ensures forall i, j :: 47 <= i < 49 && 0 <= j < i ==> InstructionTable()[i].0 != InstructionTable()[j].0
  {
  }

  lemma DistinctFrom49()
    ensures forall i, j :: 49 <= i < 51 && 0 <= j < i ==> InstructionTable()[i].0 != InstructionTable()[j].0
  {
  }

  lemma DistinctFrom51()
    ensures forall i, j :: 51 <= i < 53 && 0 <= j < i ==> InstructionTable()[i].0 != InstructionTable()[j].0
  {
  }

  lemma DistinctFrom53()
    ensures forall i, j :: 53 <= i < 55 && 0 <= j < i ==> InstructionTable()[i].0 != InstructionTable()[j].0
  {
  }

  lemma DistinctFrom55()
    ensures forall i, j :: 55 <= i < 57 && 0 <= j < i ==> InstructionTable()[i].0 != InstructionTable()[j].0
  {
  }

  lemma DistinctFrom57()
    ensures forall i, j :: 57 <= i < 59 && 0 <= j < i ==> InstructionTable()[i].0 != InstructionTable()[j].0
  {
  }

  lemma DistinctFrom59()
    ensures forall i, j :: 59 <= i < 61 && 0 <= j < i ==> InstructionTable()[i].0 != InstructionTable()[j].0
  {
  }

  lemma DistinctFrom61()
    ensures forall i, j :: 61 <= i < 63 && 0 <= j < i ==> InstructionTable()[i].0 != InstructionTable()[j].0
  {
  }

  /** No opcode is listed twice. */
  lemma InstructionsDistinct()
    ensures OpcodesDistinct(InstructionTable())
  {
    DistinctFrom0();
    DistinctFrom15();
    DistinctFrom22();
    DistinctFrom27();
    DistinctFrom31();
    DistinctFrom35();
    DistinctFrom38();
    DistinctFrom41();
    DistinctFrom44();
    DistinctFrom47();
    DistinctFrom49();
    DistinctFrom51();
    DistinctFrom53();
    DistinctFrom55();
    DistinctFrom57();
    DistinctFrom59();
    DistinctFrom61();
  }

  /** Every opcode appears in the list, exactly once. */
  lemma InstructionTableListsEachOpcodeOnce()
    ensures |InstructionTable()| == 63
    ensures forall op :: Lists(InstructionTable(), op)
    ensures OpcodesDistinct(InstructionTable())
  {
    forall op ensures Lists(InstructionTable(), op) {
      InstructionListed(op);
    }
    InstructionsDistinct();
  }

  /** What a list states at position `i`: a `*Generic` opcode directly
      follows its counterpart, with the same cost, and the memory cost is 1
      except for the global borrows, which cost 1000 instruction gas and 3
      memory gas. */
  predicate EntryWellFormed(t: seq<(Opcode, GasCost)>, i: nat)
    requires i < |t|
  {
    var (op, cost) := t[i];
    && (GenericBase(op).Some? ==>
          && 0 < i
          && t[i - 1].0 == GenericBase(op).value
          && t[i - 1].1 == cost)
    && cost.memoryGas == (if IsGlobalBorrow(op) then 3 else 1)
    && (IsGlobalBorrow(op) ==> cost.instructionGas == 1000)
  }

  // `EntryWellFormed` for every position, split into parts the verifier
  // checks quickly; `InstructionEntriesWellFormed` combines them.

  lemma EntriesFrom0()
    ensures forall i :: 0 <= i < 8 ==> EntryWellFormed(InstructionTable(), i)
  {
  }

  lemma EntriesFrom8()
    ensures forall i :: 8 <= i < 16 ==> EntryWellFormed(InstructionTable(), i)
  {
  }

  lemma EntriesFrom16()
    ensures forall i :: 16 <= i < 24 ==> EntryWellFormed(InstructionTable(), i)
  {
  }

  lemma EntriesFrom24()
    ensures forall i :: 24 <= i < 32 ==> EntryWellFormed(InstructionTable(), i)
  {
  }

  lemma EntriesFrom32()
    ensures forall i :: 32 <= i < 40 ==> EntryWellFormed(InstructionTable(), i)
  {
  }

  lemma EntriesFrom40()
    ensures forall i :: 40 <= i < 46 ==> EntryWellFormed(InstructionTable(), i)
  {
  }

  lemma EntriesFrom46()
    ensures forall i :: 46 <= i < 52 ==> EntryWellFormed(InstructionTable(), i)
  {
  }

  lemma EntriesFrom52()
    ensures forall i :: 52 <= i < 58 ==> EntryWellFormed(InstructionTable(), i)
  {
  }

  lemma EntriesFrom58()
    ensures forall i :: 58 <= i < 63 ==> EntryWellFormed(InstructionTable(), i)
  {
  }

  lemma InstructionEntriesWellFormed()
    ensures EntriesWellFormed(InstructionTable())
  {
    EntriesFrom0();
    EntriesFrom8();
    EntriesFrom16();
    EntriesFrom24();
    EntriesFrom32();
    EntriesFrom40();
    EntriesFrom46();
    EntriesFrom52();
    EntriesFrom58();
  }

  /** Every entry of `t` is as `EntryWellFormed` describes. */
  predicate EntriesWellFormed(t: seq<(Opcode, GasCost)>)
  {
    forall i :: 0 <= i < |t| ==> EntryWellFormed(t, i)
  }

  /** In a list without repeated opcodes, where each generic entry follows
      its counterpart, the two entries carry the same cost. */
  lemma GenericCostsMatchIn(t: seq<(Opcode, GasCost)>)
    requires OpcodesDistinct(t) && EntriesWellFormed(t)
    ensures forall i, j :: 0 <= i < |t| && 0 <= j < |t| && GenericBase(t[i].0) == Some(t[j].0) ==> t[i].1 == t[j].1
  {
    forall i, j | 0 <= i < |t| && 0 <= j < |t| && GenericBase(t[i].0) == Some(t[j].0)
      ensures t[i].1 == t[j].1
    {
      assert EntryWellFormed(t, i);
      assert t[i - 1].0 == t[j].0;
    }
  }

  /** A generic instruction costs what its non-generic counterpart costs. */
  lemma GenericCostsMatch()
    ensures forall i, j :: 0 <= i < |InstructionTable()| && 0 <= j < |InstructionTable()|
                        && GenericBase(InstructionTable()[i].0) == Some(InstructionTable()[j].0)
                        ==> InstructionTable()[i].1 == InstructionTable()[j].1
    ensures InstructionTable()[0] == (MoveTo, GasCost(825, 1)) && InstructionTable()[1] == (MoveToGeneric, GasCost(825, 1))
    ensures InstructionTable()[2] == (MoveFrom, GasCost(917, 1)) && InstructionTable()[3] == (MoveFromGeneric, GasCost(917, 1))
    ensures InstructionTable()[49] == (Exists, GasCost(856, 1)) && InstructionTable()[50] == (ExistsGeneric, GasCost(856, 1))
  {
    InstructionsDistinct();
    InstructionEntriesWellFormed();
    GenericCostsMatchIn(InstructionTable());
  }

  lemma MemoryCostsIn(t: seq<(Opcode, GasCost)>)
    requires EntriesWellFormed(t)
    ensures forall i :: 0 <= i < |t| ==> t[i].1.memoryGas == (if IsGlobalBorrow(t[i].0) then 3 else 1)
    ensures forall i :: 0 <= i < |t| && IsGlobalBorrow(t[i].0) ==> t[i].1 == GasCost(1000, 3)
  {
    forall i | 0 <= i < |t|
      ensures t[i].1.memoryGas == (if IsGlobalBorrow(t[i].0) then 3 else 1)
      ensures IsGlobalBorrow(t[i].0) ==> t[i].1 == GasCost(1000, 3)
    {
      assert EntryWellFormed(t, i);
    }
  }

  /** Every entry has memory cost 1, except the four global borrows, which
      cost (1000, 3). */
  lemma InstructionMemoryCosts()
    ensures forall i :: 0 <= i < |InstructionTable()| ==>
              InstructionTable()[i].1.memoryGas == (if IsGlobalBorrow(InstructionTable()[i].0) then 3 else 1)
    ensures forall i :: 0 <= i < |InstructionTable()| && IsGlobalBorrow(InstructionTable()[i].0) ==>
              InstructionTable()[i].1 == GasCost(1000, 3)
  {
    InstructionEntriesWellFormed();
    MemoryCostsIn(InstructionTable());
  }

  // ----- INITIAL_GAS_SCHEDULE: the native cost list -----

  /** `native_table` as declared at lines 172-204, before sorting. */
  function NativeTable(): seq<(NativeCostIndex, GasCost)>
  {
    [ (Sha2_256, GasCost(21, 1)),
      (Sha3_256, GasCost(64, 1)),
      (Ed25519Verify, GasCost(61, 1)),
      (Ed25519ThresholdVerify, GasCost(3351, 1)),
      (BcsToBytes, GasCost(181, 1)),
      (Length, GasCost(98, 1)),
      (Empty, GasCost(84, 1)),
      (Borrow, GasCost(1334, 1)) ] +
    [ (BorrowMut, GasCost(1902, 1)),
      (PushBack, GasCost(53, 1)),
      (PopBack, GasCost(227, 1)),
      (DestroyEmpty, GasCost(572, 1)),
      (Swap, GasCost(1436, 1)),
      (Ed25519ValidateKey, GasCost(26, 1)),
      (SignerBorrow, GasCost(353, 1)),
      (CreateSigner, GasCost(24, 1)) ] +
    [ (DestroySigner, GasCost(212, 1)),
      (EmitEvent, GasCost(52, 1)),
      (U256FromU8, GasCost(10, 1)),
      (U256FromU64, GasCost(10, 1)),
      (U256FromU128, GasCost(10, 1)),
      (U256AsU8, GasCost(10, 1)),
      (U256AsU64, GasCost(10, 1)),
      (U256AsU128, GasCost(10, 1)) ] +
    [ (U256Mul, GasCost(10, 1)),
      (U256Div, GasCost(10, 1)),
      (U256Sub, GasCost(10, 1)),
      (U256Add, GasCost(10, 1)),
      (Deposit, GasCost(706, 1)),
      (Withdraw, GasCost(706, 1)),
      (GetBalance, GasCost(353, 1)) ]
  }

  /** Where each native index sits in `NativeTable()`. */
  function NativePosition(n: NativeCostIndex): nat
  {
    match n
    case Sha2_256 => 0
    case Sha3_256 => 1
    case Ed25519Verify => 2
    case Ed25519ThresholdVerify => 3
    case BcsToBytes => 4
    case Length => 5
    case Empty => 6
    case Borrow => 7
    case BorrowMut => 8
    case PushBack => 9
    case PopBack => 10
    case DestroyEmpty => 11
    case Swap => 12
    case Ed25519ValidateKey => 13
    case SignerBorrow => 14
    case CreateSigner => 15
    case DestroySigner => 16
    case EmitEvent => 17
    case U256FromU8 => 18
    case U256FromU64 => 19
    case U256FromU128 => 20
    case U256AsU8 => 21
    case U256AsU64 => 22
    case U256AsU128 => 23
    case U256Mul => 24
    case U256Div => 25
    case U256Sub => 26
    case U256Add => 27
    case Deposit => 28
    case Withdraw => 29
    case GetBalance => 30
  }

  type NativeEntry = (NativeCostIndex, GasCost)

  /** The key `sort_by_key` sorts on: `cost.0 as u64`, the native index's
      discriminant. The discriminants are declared outside this model, so
      they are a parameter. */
  function NativeKey(discriminant: NativeCostIndex -> nat): NativeEntry -> nat
  {
    (e: NativeEntry) => discriminant(e.0)
  }

  /** The `.map(|(_, cost)| cost)` projection. */
  function Costs(s: seq<NativeEntry>): (r: seq<GasCost>)
    ensures |r| == |s|
    ensures forall i :: 0 <= i < |s| ==> r[i] == s[i].1
  {
    if s == [] then [] else Costs(s[..|s| - 1]) + [s[|s| - 1].1]
  }

  lemma CostsAppend(a: seq<NativeEntry>, b: seq<NativeEntry>)
    ensures Costs(a + b) == Costs(a) + Costs(b)
  {
  }

  /** Projecting a list with entry `k` removed is removing cost `k` from
      the projection. */
  lemma CostsWithout(s: seq<NativeEntry>, k: nat)
    requires k < |s|
    ensures Costs(s[..k] + s[k + 1..]) == Costs(s)[..k] + Costs(s)[k + 1..]
  {
    var c, d := Costs(s), Costs(s[..k] + s[k + 1..]);
    forall i | 0 <= i < |d| ensures d[i] == (c[..k] + c[k + 1..])[i] {
      if i < k {
        assert (s[..k] + s[k + 1..])[i] == s[i];
      } else {
        assert (s[..k] + s[k + 1..])[i] == s[i + 1];
      }
    }
  }

  /** Removing position `k` removes one copy of its element. */
  lemma MultisetWithout<T>(s: seq<T>, k: nat)
    requires k < |s|
    ensures multiset(s) == multiset(s[..k] + s[k + 1..]) + multiset{s[k]}
    ensures multiset(s[..k] + s[k + 1..]) == multiset(s) - multiset{s[k]}
  {
    assert s == s[..k] + [s[k]] + s[k + 1..];
  }

  /** Taking the same entry out of both lists, at positions `n` and `k`,
      reduces the claim to the shorter lists. */
  lemma CostsPermutationStep(s1: seq<NativeEntry>, s2: seq<NativeEntry>, n: nat, k: nat)
    requires n < |s1| && k < |s2| && s1[n] == s2[k]
    requires multiset(Costs(s1[..n] + s1[n + 1..])) == multiset(Costs(s2[..k] + s2[k + 1..]))
    ensures multiset(Costs(s1)) == multiset(Costs(s2))
  {
    var c1, c2 := Costs(s1), Costs(s2);
    CostsWithout(s1, n);
    CostsWithout(s2, k);
    MultisetWithout(c1, n);
    MultisetWithout(c2, k);
    assert multiset(c1) == multiset(Costs(s1[..n] + s1[n + 1..])) + multiset{c1[n]};
    assert multiset(c2) == multiset(Costs(s2[..k] + s2[k + 1..])) + multiset{c2[k]};
    assert c1[n] == s1[n].1 == c2[k];
  }

  /** Projecting two permutations of each other gives permutations. */
  lemma {:induction false} CostsPermutation(s1: seq<NativeEntry>, s2: seq<NativeEntry>)
    requires multiset(s1) == multiset(s2)
    ensures multiset(Costs(s1)) == multiset(Costs(s2))
    decreases |s1|
  {
    if s1 != [] {
      var n := |s1| - 1;
      assert s1[n] in multiset(s2);
      var k :| 0 <= k < |s2| && s2[k] == s1[n];
      var init, rest := s1[..n] + s1[n + 1..], s2[..k] + s2[k + 1..];
      MultisetWithout(s1, n);
      MultisetWithout(s2, k);
      CostsPermutation(init, rest);
      CostsPermutationStep(s1, s2, n, k);
    }
  }

  /** The cost the list declares for native `n`. */
  function NativeCost(n: NativeCostIndex): (c: GasCost)
    ensures (n, c) in NativeTable()
  {
    NativeListed(n);
    NativeTable()[NativePosition(n)].1
  }

  /** Each native index is listed at its position. */
  lemma NativeListed(n: NativeCostIndex)
    ensures NativePosition(n) < |NativeTable()|
    ensures NativeTable()[NativePosition(n)].0 == n
  {
    match n {
      case Sha2_256 =>
      case Sha3_256 =>
      case Ed25519Verify =>
      case Ed25519ThresholdVerify =>
      case BcsToBytes =>
      case Length =>
      case Empty =>
      case Borrow =>
      case BorrowMut =>
      case PushBack =>
      case PopBack =>
      case DestroyEmpty =>
      case Swap =>
      case Ed25519ValidateKey =>
      case SignerBorrow =>
      case CreateSigner =>
      case DestroySigner =>
      case EmitEvent =>
      case U256FromU8 =>
      case U256FromU64 =>
      case U256FromU128 =>
      case U256AsU8 =>
      case U256AsU64 =>
      case U256AsU128 =>
      case U256Mul =>
      case U256Div =>
      case U256Sub =>
      case U256Add =>
      case Deposit =>
      case Withdraw =>
      case GetBalance =>
    }
  }

  lemma NativesFrom0()
    ensures forall i :: 0 <= i < 8 ==> NativePosition(NativeTable()[i].0) == i
  {
  }

  lemma NativesFrom8()
    ensures forall i :: 8 <= i < 16 ==> NativePosition(NativeTable()[i].0) == i
  {
  }

  lemma NativesFrom16()
    ensures forall i :: 16 <= i < 24 ==> NativePosition(NativeTable()[i].0) == i
  {
  }

  lemma NativesFrom24()
    ensures forall i :: 24 <= i < 31 ==> NativePosition(NativeTable()[i].0) == i
  {
  }

  /** Every native index appears in the list, exactly once. */
  lemma NativeTableListsEachIndexOnce()
    ensures |NativeTable()| == 31
    ensures forall n :: NativePosition(n) < |NativeTable()| && NativeTable()[NativePosition(n)].0 == n
    ensures forall i :: 0 <= i < |NativeTable()| ==> NativePosition(NativeTable()[i].0) == i
  {
    forall n {
      NativeListed(n);
    }
    NativesFrom0();
    NativesFrom8();
    NativesFrom16();
    NativesFrom24();
  }

  /** The native costs after the sort, as the gas schedule receives them. */
  function SortedNativeCosts(discriminant: NativeCostIndex -> nat): seq<GasCost>
  {
    Costs(StableSort(NativeTable(), NativeKey(discriminant)))
  }

  /** Lines 172-209: copy the list into a buffer, sort it by native index in
      place, and project out the costs. */
  method RawNativeTable(discriminant: NativeCostIndex -> nat) returns (raw: seq<GasCost>)
    ensures raw == SortedNativeCosts(discriminant)
  {
    var table := NativeTable();
    var nativeTable := new NativeEntry[|table|](i requires 0 <= i < |table| => table[i]);
    assert nativeTable[..] == table;
    SortInPlace(nativeTable, NativeKey(discriminant));
    raw := Costs(nativeTable[..]);
  }

  /** The raw native table lists all 31 costs, each once, ordered by
      native index, with equal indices kept in list order. */
  lemma SortedNativeCostsProperties(discriminant: NativeCostIndex -> nat)
    ensures |SortedNativeCosts(discriminant)| == |NativeTable()| == 31
    ensures multiset(SortedNativeCosts(discriminant)) == multiset(Costs(NativeTable()))
    ensures SortedBy(StableSort(NativeTable(), NativeKey(discriminant)), NativeKey(discriminant))
    ensures StableFor(StableSort(NativeTable(), NativeKey(discriminant)), NativeTable(), NativeKey(discriminant))
  {
    var key := NativeKey(discriminant);
    StableSortCorrect(NativeTable(), key);
    CostsPermutation(StableSort(NativeTable(), key), NativeTable());
  }

  /** Injective discriminants give distinct keys to a list that holds
      each native at its position. */
  lemma NativeKeysDistinct(t: seq<NativeEntry>, discriminant: NativeCostIndex -> nat)
    requires forall i :: 0 <= i < |t| ==> NativePosition(t[i].0) == i
    requires forall a, b :: discriminant(a) == discriminant(b) ==> a == b
    ensures DistinctKeys(t, NativeKey(discriminant))
  {
    forall i, j | 0 <= i < j < |t| ensures NativeKey(discriminant)(t[i]) != NativeKey(discriminant)(t[j]) {
      assert NativePosition(t[i].0) == i && NativePosition(t[j].0) == j;
    }
  }

  /** When the discriminants number the 31 native indices 0 to 30 (as the VM
      expects when it looks a native's cost up by its index), the sorted
      table holds each native's cost at its discriminant. */
  lemma NativeCostAtDiscriminant(discriminant: NativeCostIndex -> nat, n: NativeCostIndex)
    requires forall m :: discriminant(m) < 31
    requires forall a, b :: discriminant(a) == discriminant(b) ==> a == b
    ensures discriminant(n) < |SortedNativeCosts(discriminant)|
    ensures SortedNativeCosts(discriminant)[discriminant(n)] == NativeCost(n)
  {
    var t := NativeTable();
    var key := NativeKey(discriminant);
    NativeTableListsEachIndexOnce();
    NativeKeysDistinct(t, discriminant);
    assert forall m :: 0 <= m < |t| ==> key(t[m]) < |t|;
    StableSortPlacesByKey(t, key);
    NativeListed(n);
    var p := NativePosition(n);
    assert key(t[p]) == discriminant(n);
  }

  /** `INITIAL_GAS_SCHEDULE`: the two lists `new_from_instructions` receives. */
  method InitialGasSchedule(discriminant: NativeCostIndex -> nat) returns (table: CostTable)
    ensures table.instructions == InstructionTable()
    ensures table.natives == SortedNativeCosts(discriminant)
  {
    var raw := RawNativeTable(discriminant);
    table := CostTable(InstructionTable(), raw);
  }

  /** `PontemDialect::cost_table`: a copy of the initial schedule. */
  method GasCostTable(discriminant: NativeCostIndex -> nat) returns (table: CostTable)
    ensures table == CostTable(InstructionTable(), SortedNativeCosts(discriminant))
  {
    table := InitialGasSchedule(discriminant);
  }
}
