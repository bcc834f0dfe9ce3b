/** Value types of the Move libraries that the dialects and `dove build`
    use. Only what those read of them is modelled: an address is its bytes, a gas cost is its
    pair of components, an instruction is its opcode tag, and a cost table
    is the pair of lists it is built from. */
module MoveTypes {
  import opened Hex

  /** `move_core_types::account_address::AccountAddress`. */
  datatype AccountAddress = AccountAddress(bytes: seq<byte>)

  /** `GasCost::new(instruction_gas, memory_gas)`. */
  datatype GasCost = GasCost(instructionGas: nat, memoryGas: nat)

  /** The opcode of a `vm::file_format::Bytecode` (operands dropped: the gas
      schedule only distinguishes instructions by opcode). */
  datatype Opcode =
    | MoveTo | MoveToGeneric | MoveFrom | MoveFromGeneric
    | BrTrue | WriteRef | Mul | MoveLoc | And | Pop | BitAnd | ReadRef | Sub
    | MutBorrowField | MutBorrowFieldGeneric | ImmBorrowField | ImmBorrowFieldGeneric
    | Add | CopyLoc | StLoc | Ret | Lt | LdU8 | LdU64 | LdU128
    | CastU8 | CastU64 | CastU128 | Abort | MutBorrowLoc | ImmBorrowLoc | LdConst
    | Ge | Xor | Shl | Shr | Neq | Not | Call | CallGeneric | Le | Branch
    | Unpack | UnpackGeneric | Or | LdFalse | LdTrue | Mod | BrFalse
    | Exists | ExistsGeneric | BitOr | FreezeRef
    | MutBorrowGlobal | MutBorrowGlobalGeneric | ImmBorrowGlobal | ImmBorrowGlobalGeneric
    | Div | Eq | Gt | Pack | PackGeneric | Nop

  /** `move_vm_types::gas_schedule::NativeCostIndex`. Its discriminants are
      declared in that crate, which is not part of this model. */
  datatype NativeCostIndex =
    | Sha2_256 | Sha3_256 | Ed25519Verify | Ed25519ThresholdVerify | BcsToBytes
    | Length | Empty | Borrow | BorrowMut | PushBack | PopBack | DestroyEmpty | Swap
    | Ed25519ValidateKey | SignerBorrow | CreateSigner | DestroySigner | EmitEvent
    | U256FromU8 | U256FromU64 | U256FromU128 | U256AsU8 | U256AsU64 | U256AsU128
    | U256Mul | U256Div | U256Sub | U256Add | Deposit | Withdraw | GetBalance

  /** A `CostTable`, represented by the two lists handed to
      `gas_schedule::new_from_instructions`. */
  datatype CostTable = CostTable(instructions: seq<(Opcode, GasCost)>, natives: seq<GasCost>)
}
