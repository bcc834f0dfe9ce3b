/** The `Pontem` dialect of `lang/src/compiler/dialects/pontem.rs`: SS58
    addresses take precedence over `0x` hex literals, every failure names the
    literal, and source rewriting delegates to the SS58 rewriter. */
module Pontem {
  import opened Wrappers
  import opened Fmt
  import opened MoveTypes
  import opened DialectTrait

  /** The functions `pontem.rs` calls but does not define. */
  datatype Externals = Externals(
    /** `ss58::ss58_to_libra`: an SS58 address to its `0x` hex form. */
    ss58ToLibra: string -> Result<string>,
    /** `AccountAddress::from_hex_literal`. */
    fromHexLiteral: string -> Result<AccountAddress>,
    /** `ss58::replace_ss58_addresses`: rewritten text and updated offset map. */
    replaceSs58Addresses: (string, FileOffsetMap) -> (string, FileOffsetMap),
    /** `mvm::gas_schedule::cost_table()`. */
    mvmCostTable: CostTable)

  function Name(): string { "pontem" }

  predicate StartsWith(s: string, prefix: string)
  {
    |prefix| <= |s| && s[..|prefix|] == prefix
  }

  const NotAnAddress: string := "Address is not valid libra or pontem address"

  /** The context every `parse_address` failure is wrapped in. */
  function AddressContext(addr: string): string
  {
    "Address " + DebugStr(addr) + " is not a valid diem/pontem address"
  }

  /** `Pontem::parse_address`. */
  function ParseAddress(ext: Externals, addr: string): (r: Result<AccountAddress>)
    ensures r.Err? ==> r.error.Context? && r.error.context == AddressContext(addr)
  {
    var res :=
      if ext.ss58ToLibra(addr).Ok? then ext.fromHexLiteral(ext.ss58ToLibra(addr).value)
      else if StartsWith(addr, "0x") then ext.fromHexLiteral(addr)
      else Err(Message(NotAnAddress));
    WithContext(res, AddressContext(addr))
  }

  /** An SS58 literal is converted first, whether or not it also reads as hex. */
  lemma Ss58TakesPrecedence(ext: Externals, addr: string)
    requires ext.ss58ToLibra(addr).Ok?
    ensures var hex := ext.fromHexLiteral(ext.ss58ToLibra(addr).value);
            ParseAddress(ext, addr) == WithContext(hex, AddressContext(addr))
  {
  }

  /** Without an SS58 reading, a `0x` literal is exactly `from_hex_literal`'s
      result, and anything else is rejected. */
  lemma HexFallback(ext: Externals, addr: string)
    requires ext.ss58ToLibra(addr).Err?
    ensures StartsWith(addr, "0x") ==>
              ParseAddress(ext, addr) == WithContext(ext.fromHexLiteral(addr), AddressContext(addr))
    ensures !StartsWith(addr, "0x") ==>
              ParseAddress(ext, addr) == Err(Context(AddressContext(addr), Message(NotAnAddress)))
  {
  }

  /** Success, characterised independently of the dispatch order. */
  lemma ParseAddressSucceeds(ext: Externals, addr: string, a: AccountAddress)
    ensures ParseAddress(ext, addr) == Ok(a) <==>
              || (ext.ss58ToLibra(addr).Ok? && ext.fromHexLiteral(ext.ss58ToLibra(addr).value) == Ok(a))
              || (ext.ss58ToLibra(addr).Err? && StartsWith(addr, "0x") && ext.fromHexLiteral(addr) == Ok(a))
  {
  }

  /** Every failure carries the offending literal, recoverable from the message. */
  lemma ParseAddressErrorNamesLiteral(ext: Externals, addr: string)
    requires ParseAddress(ext, addr).Err?
    ensures QuotedBetween("Address ", " is not a valid diem/pontem address",
                          ParseAddress(ext, addr).error.context) == Some(addr)
  {
    QuotedBetweenRoundTrip("Address ", addr, " is not a valid diem/pontem address");
  }

  /** `Pontem::replace_addresses`: always an owned string, equal to what the
      SS58 rewriter produced, together with the offset map it updated. */
  function ReplaceAddresses(ext: Externals, sourceText: string, sourceMap: FileOffsetMap): (r: Rewritten)
    ensures r.text.Owned?
    ensures (r.text.text, r.sourceMap) == ext.replaceSs58Addresses(sourceText, sourceMap)
  {
    var (text, map') := ext.replaceSs58Addresses(sourceText, sourceMap);
    Rewritten(Owned(text), map')
  }

  /** `Pontem` as a `Box<dyn Dialect>`. */
  function AsDialect(ext: Externals): (d: Dialect)
    ensures d.name == Name()
    ensures d.costTable == ext.mvmCostTable
    ensures forall addr :: d.parseAddress(addr) == ParseAddress(ext, addr)
    ensures forall text, m :: d.replaceAddresses(text, m) == ReplaceAddresses(ext, text, m)
  {
    Dialect(Name(), addr => ParseAddress(ext, addr), ext.mvmCostTable,
            (text, m) => ReplaceAddresses(ext, text, m))
  }
}
