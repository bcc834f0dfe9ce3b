/** The dialect registry of `lang/src/compiler/dialects/mod.rs`: the closed
    set of dialect names, their textual form, and the dialect object each
    selects. */
module Dialects {
  import opened Wrappers
  import opened Fmt
  import opened DialectTrait
  import Pontem

  datatype DialectName = Libra | DFinance | Pontem

  /** The name as written in a manifest (`serde(rename_all = "lowercase")`). */
  function SerdeName(n: DialectName): string
  {
    match n
    case Libra => "libra"
    case DFinance => "dfinance"
    case Pontem => "pontem"
  }

  function InvalidDialect(s: string): Error
  {
    Message("Invalid dialect " + DebugStr(s))
  }

  /** `DialectName::from_str`: an exact, case-sensitive match. */
  function FromStr(s: string): (r: Result<DialectName>)
    ensures r.Ok? <==> s in {"libra", "dfinance", "pontem"}
    ensures r.Ok? ==> SerdeName(r.value) == s
    ensures r.Err? ==> r.error == InvalidDialect(s)
  {
    match s
    case "libra" => Ok(Libra)
    case "dfinance" => Ok(DFinance)
    case "pontem" => Ok(Pontem)
    case _ => Err(InvalidDialect(s))
  }

  /** Every variant's textual name parses back to it ... */
  lemma FromStrRoundTrip(n: DialectName)
    ensures FromStr(SerdeName(n)) == Ok(n)
  {
  }

  /** ... and those three names are the only strings accepted. */
  lemma FromStrAcceptsOnlyNames(s: string)
    ensures FromStr(s).Ok? <==> exists n :: SerdeName(n) == s
  {
    if FromStr(s).Ok? {
      assert SerdeName(FromStr(s).value) == s;
    }
  }

  lemma FromStrIsCaseSensitive()
    ensures FromStr("Pontem").Err? && FromStr(" pontem").Err? && FromStr("diem").Err?
    ensures FromStr("LIBRA").Err? && FromStr("DFinance").Err?
  {
  }

  /** The error names the rejected input: it can be read back from the message. */
  lemma FromStrErrorNamesInput(s: string)
    requires FromStr(s).Err?
    ensures QuotedBetween("Invalid dialect ", "", FromStr(s).error.text) == Some(s)
  {
    assert "Invalid dialect " + DebugStr(s) == "Invalid dialect " + DebugStr(s) + "";
    QuotedBetweenRoundTrip("Invalid dialect ", s, "");
  }

  /** The dialect objects `get_dialect` can return. `Diem` and `DFinance`
      are defined in `diem.rs` and `dfinance.rs`, which are not part of this
      model, so they are supplied as values. */
  datatype Registry = Registry(diem: Dialect, dfinance: Dialect, pontem: Pontem.Externals)

  /** `DialectName::get_dialect`: total over the three variants. */
  function GetDialect(n: DialectName, reg: Registry): (d: Dialect)
    ensures n == Libra ==> d == reg.diem
    ensures n == DFinance ==> d == reg.dfinance
    ensures n == Pontem ==> d == Pontem.AsDialect(reg.pontem)
  {
    match n
    case Libra => reg.diem
    case DFinance => reg.dfinance
    case Pontem => Pontem.AsDialect(reg.pontem)
  }

  /** The Pontem dialect object reports the name that selects it. */
  lemma PontemNameSelectsPontem(reg: Registry)
    ensures GetDialect(Pontem, reg).name == "pontem"
    ensures FromStr(GetDialect(Pontem, reg).name) == Ok(Pontem)
  {
  }
}
