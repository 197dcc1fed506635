/** `parse_args_or_exit`: the four selector strings are parsed in a fixed
    order and the first one that does not parse stops the tool. */
module Args {
  import opened Types
  import opened HexParse
  import opened Locator

  /** The selector strings of the command line: vendor and product are
      required, the usage page and usage id have defaults. */
  datatype Args = Args(vendorId: string, productId: string, usagePage: string, usageId: string)

  /** Defaults of the usage flags: the raw-HID interface QMK exposes. */
  const DefaultUsagePage: string := "0xFF60"
  const DefaultUsageId: string := "0x61"

  /** The selector fields, in the order they are parsed. */
  datatype Field = VendorId | ProductId | UsagePage | UsageId

  function Text(args: Args, f: Field): (s: string) {
    match f
    case VendorId => args.vendorId
    case ProductId => args.productId
    case UsagePage => args.usagePage
    case UsageId => args.usageId
  }

  /** The field that did not parse and the parser's error for it. */
  datatype ArgError = ArgError(field: Field, cause: HexError)

  predicate Parses(args: Args, f: Field) {
    ParseHexString(Text(args, f)).Ok?
  }

  /** Every field parsed ahead of `f` parses. */
  predicate EarlierFieldsParse(args: Args, f: Field) {
    match f
    case VendorId => true
    case ProductId => Parses(args, VendorId)
    case UsagePage => Parses(args, VendorId) && Parses(args, ProductId)
    case UsageId => Parses(args, VendorId) && Parses(args, ProductId) && Parses(args, UsagePage)
  }

  /** `parse_args_or_exit`: succeeds exactly when all four strings parse and
      then gives their values in vendor, product, usage page, usage order;
      otherwise it reports the earliest field that failed. */
  function ParseArgs(args: Args): (r: Result<Selector, ArgError>)
    ensures r.Ok? <==> Parses(args, VendorId) && Parses(args, ProductId) && Parses(args, UsagePage) && Parses(args, UsageId)
    ensures r.Ok? ==> r.value == Selector(ParseHexString(args.vendorId).value, ParseHexString(args.productId).value,
                                          ParseHexString(args.usagePage).value, ParseHexString(args.usageId).value)
    ensures r.Err? ==> ParseHexString(Text(args, r.error.field)) == Err(r.error.cause)
    ensures r.Err? ==> EarlierFieldsParse(args, r.error.field)
  {
    match ParseHexString(args.vendorId)
    case Err(e) => Err(ArgError(VendorId, e))
    case Ok(vendor) =>
      match ParseHexString(args.productId)
      case Err(e) => Err(ArgError(ProductId, e))
      case Ok(product) =>
        match ParseHexString(args.usagePage)
        case Err(e) => Err(ArgError(UsagePage, e))
        case Ok(page) =>
          match ParseHexString(args.usageId)
          case Err(e) => Err(ArgError(UsageId, e))
          case Ok(usage) =>
            Ok(Selector(vendor, product, page, usage))
  }

  lemma {:induction false} PageDigitsValue()
    ensures AllHexDigits("FF60") && DigitsValue("FF60") == 0xFF60
  {
    var page := "FF60";
    assert AllHexDigits(page);
    assert page[..3] == "FF6" && page[..3][..2] == "FF" && page[..2][..1] == "F";
    assert DigitsValue("F") == 15;
    assert DigitsValue("FF") == 0xFF;
    assert DigitsValue("FF6") == 0xFF6;
  }

  lemma {:induction false} UsageDigitsValue()
    ensures AllHexDigits("61") && DigitsValue("61") == 0x61
  {
    var usage := "61";
    assert AllHexDigits(usage);
    assert usage[..1] == "6";
  }

  /** The default usage page string denotes QMK's raw-HID usage page. */
  lemma {:induction false} DefaultUsagePageParses()
    ensures ParseHexString(DefaultUsagePage) == Ok(0xFF60)
  {
    PageDigitsValue();
    PrefixedDigitsParse("FF60");
    assert DefaultUsagePage == "0x" + "FF60";
  }

  /** The default usage id string denotes QMK's raw-HID usage. */
  lemma {:induction false} DefaultUsageIdParses()
    ensures ParseHexString(DefaultUsageId) == Ok(0x61)
  {
    UsageDigitsValue();
    PrefixedDigitsParse("61");
    assert DefaultUsageId == "0x" + "61";
  }

  /** With the default usage strings, parsing succeeds exactly when vendor and
      product parse, and selects the QMK raw-HID interface of that device. */
  lemma {:induction false} DefaultsSelectRawHid(vendor: string, product: string)
    ensures var r := ParseArgs(Args(vendor, product, DefaultUsagePage, DefaultUsageId));
            (r.Ok? <==> ParseHexString(vendor).Ok? && ParseHexString(product).Ok?)
            && (r.Ok? ==> r.value.usagePage == 0xFF60 && r.value.usageId == 0x61)
  {
    DefaultUsagePageParses();
    DefaultUsageIdParses();
  }
}
