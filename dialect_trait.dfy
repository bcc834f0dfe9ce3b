/** The `Dialect` trait of `lang/src/compiler/dialects/mod.rs`, as a record of
    its four operations: a dialect object is the value of those operations. */
module DialectTrait {
  import opened Wrappers
  import opened MoveTypes

  /** `crate::compiler::source_map::FileOffsetMap`; its structure is not part
      of this model. */
  type FileOffsetMap(!new)

  /** `std::borrow::Cow<str>`: rewritten text is either the caller's own
      text or a freshly owned string. */
  datatype Cow = Borrowed(text: string) | Owned(text: string)

  /** What `replace_addresses` produces: the rewritten text and the offset
      map it updated through its `&mut` argument. */
  datatype Rewritten = Rewritten(text: Cow, sourceMap: FileOffsetMap)

  datatype Dialect = Dialect(
    name: string,
    parseAddress: string -> Result<AccountAddress>,
    costTable: CostTable,
    replaceAddresses: (string, FileOffsetMap) -> Rewritten)
}
