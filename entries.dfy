/**
 * The OFAC SDN feed as the XML parser hands it over, and the map from each `sdnEntry`
 * to the flat record the server caches and serves (server.js, `fetchOFACData`).
 *
 * The parser runs with `explicitArray: false`: an element that occurs once becomes a
 * value, one that occurs several times becomes an array, and one that does not occur is
 * `undefined`. `Field` keeps exactly that three-way shape, because the code branches on it.
 */
module Entries {
  import opened Wrappers
  import opened Text

  /** One child element as the parser returns it: missing, a single value, or an array. */
  datatype Field<T> = Absent | Single(value: T) | Many(values: seq<T>)

  /**
   * A list container such as `programList`: `None` when the element is missing or empty
   * (the parser yields `''`, which is falsy), `Some(f)` when it is present with child `f`.
   */
  type Container<T> = Option<Field<T>>

  /** One `address` element; each part is `undefined` when missing. */
  datatype Address = Address(address1: Option<string>, city: Option<string>, country: Option<string>)

  /** One `sdnEntry` element as parsed. `remarks` is `None` when missing. */
  datatype SdnEntry = SdnEntry(
    uid: Option<string>,
    firstName: Option<string>,
    lastName: Option<string>,
    sdnType: Option<string>,
    programList: Container<string>,
    citizenshipList: Container<string>,
    addressList: Container<Address>,
    remarks: Option<string>,
    dateOfBirthList: Container<string>)

  /** The flat record the server stores; `None` is a property whose value is `undefined`. */
  datatype Record = Record(
    uid: Option<string>,
    name: Option<string>,
    sdnType: Option<string>,
    programs: Option<string>,
    countries: Option<string>,
    addresses: string,
    remarks: string,
    dateOfBirth: Option<string>)

  /** What reading a property of `undefined` or calling a missing method throws. */
  datatype Error =
    | NetworkFailure(message: string)
    | MalformedXml(message: string)
    | NoSdnList
    | EntriesNotArray
    | NoAddress

  /** The `message` of each error, as Node.js's engine words the type errors. */
  function Message(e: Error): string {
    match e
    case NetworkFailure(m) => m
    case MalformedXml(m) => m
    case NoSdnList => "Cannot read properties of undefined (reading 'sdnEntry')"
    case EntriesNotArray => "entries.map is not a function"
    case NoAddress => "Cannot read properties of undefined (reading 'address1')"
  }

  /** The placeholder for an absent list or empty remarks. */
  const NotAvailable := "N/A"

  /** The separator between list items. */
  const ItemSeparator := ", "

  /** The separator between rendered addresses. */
  const AddressSeparator := "; "

  /** `x || ''` for a string property. */
  function OrEmpty(x: Option<string>): string {
    if x.Some? then x.value else ""
  }

  /** The template literal `${first || ''} ${last || ''}`, before trimming. */
  function ComposedName(first: Option<string>, last: Option<string>): string {
    OrEmpty(first) + " " + OrEmpty(last)
  }

  /**
   * The display name: the type when both name parts are blank; otherwise a non-empty
   * string with no white space at either end (`DisplayNameIsInfix` says which one).
   */
  function DisplayName(first: Option<string>, last: Option<string>, sdnType: Option<string>): (r: Option<string>)
    ensures IsBlank(OrEmpty(first)) && IsBlank(OrEmpty(last)) ==> r == sdnType
    ensures !(IsBlank(OrEmpty(first)) && IsBlank(OrEmpty(last))) ==>
      && r.Some? && r.value != ""
      && !IsJsWhitespace(r.value[0]) && !IsJsWhitespace(r.value[|r.value| - 1])
  {
    var composed := Trim(ComposedName(first, last));
    BlankConcat(OrEmpty(first), " ");
    BlankConcat(OrEmpty(first) + " ", OrEmpty(last));
    if composed != "" then Some(composed) else sdnType
  }

  /**
   * A list field: `"N/A"` without a container, `undefined` for a container without its
   * child, and otherwise the items joined with `", "` (a single value being its own join).
   */
  function ListField(c: Container<string>): (r: Option<string>)
    ensures c.None? ==> r == Some(NotAvailable)
    ensures c == Some(Absent) ==> r.None?
    ensures c.Some? && !c.value.Absent? ==> r == Some(Join(Items(c.value), ItemSeparator))
  {
    match c
    case None => Some(NotAvailable)
    case Some(Absent) => None
    case Some(Single(v)) => Some(v)
    case Some(Many(vs)) => Some(Join(vs, ItemSeparator))
  }

  /** The template literal `${address1 || ''} ${city || ''} ${country || ''}`, before trimming. */
  function RawAddress(a: Address): string {
    OrEmpty(a.address1) + " " + OrEmpty(a.city) + " " + OrEmpty(a.country)
  }

  /**
   * One address rendered: empty when every part is blank, otherwise with no white space
   * at either end (`RenderAddressIsInfix` says which text it is).
   */
  function RenderAddress(a: Address): (r: string)
    ensures r == [] <==> IsBlank(RawAddress(a))
    ensures r != [] ==> !IsJsWhitespace(r[0]) && !IsJsWhitespace(r[|r| - 1])
  {
    Trim(RawAddress(a))
  }

  /** The rendered address is the infix of `address1 + " " + city + " " + country` with only white space around it. */
  lemma RenderAddressIsInfix(a: Address)
    ensures exists i :: TrimmedAt(RawAddress(a), RenderAddress(a), i)
  {
    assert RenderAddress(a) == Trim(RawAddress(a));
    TrimIsInfix(RawAddress(a));
  }

  /** Every address of a list, rendered, in order. */
  function RenderAll(addresses: seq<Address>): (r: seq<string>)
    ensures |r| == |addresses|
    ensures forall k :: 0 <= k < |addresses| ==> r[k] == RenderAddress(addresses[k])
  {
    seq(|addresses|, k requires 0 <= k < |addresses| => RenderAddress(addresses[k]))
  }

  /**
   * The addresses field: `"N/A"` without a container; a container whose `address` child
   * is missing throws, since the code reads `address1` of `undefined`.
   */
  function AddressesField(c: Container<Address>): (r: Result<string, Error>)
    ensures c.None? ==> r == Ok(NotAvailable)
    ensures r.Err? <==> c == Some(Absent)
    ensures r.Err? ==> r.error == NoAddress
    ensures c.Some? && !c.value.Absent? ==> r == Ok(Join(RenderAll(Items(c.value)), AddressSeparator))
  {
    match c
    case None => Ok(NotAvailable)
    case Some(Absent) => Err(NoAddress)
    case Some(Single(a)) => Ok(RenderAddress(a))
    case Some(Many(list)) => Ok(Join(RenderAll(list), AddressSeparator))
  }

  /** `remarks || 'N/A'`: never empty; the remarks themselves whenever they are non-empty. */
  function RemarksField(remarks: Option<string>): (r: string)
    ensures r != ""
    ensures remarks.Some? && remarks.value != "" ==> r == remarks.value
    ensures (remarks.None? || remarks.value == "") ==> r == NotAvailable
  {
    if remarks.Some? && remarks.value != "" then remarks.value else NotAvailable
  }

  /**
   * The record for one entry, each property from its own source field; it fails only
   * when the address list has no address.
   */
  function Normalize(e: SdnEntry): (r: Result<Record, Error>)
    ensures r.Err? <==> e.addressList == Some(Absent)
    ensures r.Err? ==> r.error == NoAddress
    ensures r.Ok? ==>
      && r.value.uid == e.uid
      && r.value.sdnType == e.sdnType
      && r.value.name == DisplayName(e.firstName, e.lastName, e.sdnType)
      && r.value.programs == ListField(e.programList)
      && r.value.countries == ListField(e.citizenshipList)
      && AddressesField(e.addressList) == Ok(r.value.addresses)
      && r.value.remarks == RemarksField(e.remarks)
      && r.value.dateOfBirth == ListField(e.dateOfBirthList)
  {
    match AddressesField(e.addressList)
    case Err(err) => Err(err)
    case Ok(addresses) =>
      Ok(Record(
        uid := e.uid,
        name := DisplayName(e.firstName, e.lastName, e.sdnType),
        sdnType := e.sdnType,
        programs := ListField(e.programList),
        countries := ListField(e.citizenshipList),
        addresses := addresses,
        remarks := RemarksField(e.remarks),
        dateOfBirth := ListField(e.dateOfBirthList)))
  }

  /**
   * `xs.map(f)` for an `f` that may throw: every result in order, or the error of the
   * first element that throws, in which case nothing is produced.
   */
  function MapAll<A, B>(f: A -> Result<B, Error>, xs: seq<A>): (r: Result<seq<B>, Error>)
    ensures r.Ok? <==> forall k :: 0 <= k < |xs| ==> f(xs[k]).Ok?
    ensures r.Ok? ==> |r.value| == |xs| && forall k :: 0 <= k < |xs| ==> f(xs[k]) == Ok(r.value[k])
    ensures r.Err? ==>
      exists k :: 0 <= k < |xs| && f(xs[k]) == Err(r.error) && forall j :: 0 <= j < k ==> f(xs[j]).Ok?
    decreases |xs|
  {
    if xs == [] then Ok([])
    else
      match f(xs[0])
      case Err(e) => Err(e)
      case Ok(x) =>
        var tail := MapAll(f, xs[1..]);
        assert forall k :: 1 <= k < |xs| ==> xs[k] == xs[1..][k - 1];
        match tail
        case Err(e) =>
          var k :| 0 <= k < |xs[1..]| && f(xs[1..][k]) == Err(e) && forall j :: 0 <= j < k ==> f(xs[1..][j]).Ok?;
          assert f(xs[k + 1]) == Err(e);
          Err(e)
        case Ok(ys) =>
          Ok([x] + ys)
  }

  /** `entries.map(...)`: one record per entry in entry order, or the first entry's error. */
  function NormalizeAll(es: seq<SdnEntry>): (r: Result<seq<Record>, Error>)
    ensures r.Ok? <==> forall k :: 0 <= k < |es| ==> Normalize(es[k]).Ok?
    ensures r.Ok? ==> |r.value| == |es| && forall k :: 0 <= k < |es| ==> Normalize(es[k]) == Ok(r.value[k])
    ensures r.Err? ==>
      exists k :: 0 <= k < |es| && Normalize(es[k]) == Err(r.error) && forall j :: 0 <= j < k ==> Normalize(es[j]).Ok?
  {
    MapAll(Normalize, es)
  }

  /** The parsed `sdnList` element: its `sdnEntry` children. */
  datatype SdnList = SdnList(sdnEntry: Field<SdnEntry>)

  /** The parsed document: `None` when it has no `sdnList` root. */
  datatype Document = Document(sdnList: Option<SdnList>)

  /** The HTTP request and the XML parse together: a failure, or the parsed document. */
  datatype Fetched = FetchFailed(reason: Error) | Parsed(doc: Document)

  /**
   * `result.sdnList.sdnEntry || []`, then `.map`: reading `sdnEntry` of a missing root
   * throws, no entries gives the empty list, a single entry (an object, not an array)
   * has no `map` and throws, and several entries are taken as they are, in order.
   */
  function EntriesOf(doc: Document): (r: Result<seq<SdnEntry>, Error>)
    ensures doc.sdnList.None? ==> r == Err(NoSdnList)
    ensures doc.sdnList.Some? && doc.sdnList.value.sdnEntry.Single? ==> r == Err(EntriesNotArray)
    ensures r.Ok? <==> doc.sdnList.Some? && !doc.sdnList.value.sdnEntry.Single?
    ensures r.Ok? ==> r.value == Items(doc.sdnList.value.sdnEntry)
  {
    match doc.sdnList
    case None => Err(NoSdnList)
    case Some(SdnList(Absent)) => Ok([])
    case Some(SdnList(Single(_))) => Err(EntriesNotArray)
    case Some(SdnList(Many(es))) => Ok(es)
  }

  /**
   * Everything `fetchOFACData` does before it touches the cache: the download's or the
   * entry list's error, or else exactly one record per parsed entry, in entry order,
   * unless an entry throws, in which case the first such entry's error.
   */
  function Decode(f: Fetched): (r: Result<seq<Record>, Error>)
    ensures f.FetchFailed? ==> r == Err(f.reason)
    ensures r.Ok? ==> f.Parsed? && EntriesOf(f.doc).Ok?
    ensures r.Ok? ==> var es := EntriesOf(f.doc).value;
      |r.value| == |es| && forall k :: 0 <= k < |es| ==> Normalize(es[k]) == Ok(r.value[k])
    ensures f.Parsed? && EntriesOf(f.doc).Err? ==> r == Err(EntriesOf(f.doc).error)
    ensures f.Parsed? && EntriesOf(f.doc).Ok? ==> var es := EntriesOf(f.doc).value;
      && (r.Ok? <==> forall k :: 0 <= k < |es| ==> Normalize(es[k]).Ok?)
      && (r.Err? ==> exists k :: 0 <= k < |es| && Normalize(es[k]) == Err(r.error) && forall j :: 0 <= j < k ==> Normalize(es[j]).Ok?)
  {
    match f
    case FetchFailed(e) => Err(e)
    case Parsed(doc) =>
      match EntriesOf(doc)
      case Err(e) => Err(e)
      case Ok(es) => NormalizeAll(es)
  }

  /** The items of a parsed field, whatever its shape. */
  function Items<T>(f: Field<T>): seq<T> {
    match f
    case Absent => []
    case Single(v) => [v]
    case Many(vs) => vs
  }

  /** With only a last name, the name is that name trimmed, or the type when it is blank. */
  lemma NameOfLastOnly(last: Option<string>, sdnType: Option<string>)
    ensures DisplayName(None, last, sdnType) == if Trim(OrEmpty(last)) != "" then Some(Trim(OrEmpty(last))) else sdnType
  {
    var l := OrEmpty(last);
    assert OrEmpty(None) + " " + l == " " + l;
    TrimBlankPrefix(" ", l);
  }

  /** With only a first name, the name is that name trimmed, or the type when it is blank. */
  lemma NameOfFirstOnly(first: Option<string>, sdnType: Option<string>)
    ensures DisplayName(first, None, sdnType) == if Trim(OrEmpty(first)) != "" then Some(Trim(OrEmpty(first))) else sdnType
  {
    var f := OrEmpty(first);
    assert f + " " + OrEmpty(None) == f + " ";
    TrimBlankSuffix(f, " ");
  }

  /**
   * When a name part is not blank, the display name is the infix of `first + " " + last`
   * (a missing part counting as `""`) that has only white space around it.
   */
  lemma DisplayNameIsInfix(first: Option<string>, last: Option<string>, sdnType: Option<string>)
    requires !(IsBlank(OrEmpty(first)) && IsBlank(OrEmpty(last)))
    ensures exists i :: TrimmedAt(ComposedName(first, last), DisplayName(first, last, sdnType).value, i)
  {
    var c := ComposedName(first, last);
    BlankConcat(OrEmpty(first), " ");
    BlankConcat(OrEmpty(first) + " ", OrEmpty(last));
    assert !IsBlank(c);
    assert DisplayName(first, last, sdnType) == Some(Trim(c));
    TrimIsInfix(c);
  }

  /** Two non-empty, already trimmed name parts give `first + " " + last` exactly. */
  lemma NameOfBothParts(first: string, last: string, sdnType: Option<string>)
    requires first != "" && !IsJsWhitespace(first[0]) && !IsJsWhitespace(first[|first| - 1])
    requires last != "" && !IsJsWhitespace(last[0]) && !IsJsWhitespace(last[|last| - 1])
    ensures DisplayName(Some(first), Some(last), sdnType) == Some(first + " " + last)
  {
    var c := first + " " + last;
    assert c[0] == first[0] && c[|c| - 1] == last[|last| - 1];
    assert TrimStart(c) == c;
    assert TrimEnd(c) == c;
  }

  /** Three non-empty, already trimmed address parts render as `address1 city country`. */
  lemma AddressOfAllParts(address1: string, city: string, country: string)
    requires address1 != "" && !IsJsWhitespace(address1[0])
    requires country != "" && !IsJsWhitespace(country[|country| - 1])
    ensures RenderAddress(Address(Some(address1), Some(city), Some(country))) == address1 + " " + city + " " + country
  {
    var c := address1 + " " + city + " " + country;
    assert c[0] == address1[0] && c[|c| - 1] == country[|country| - 1];
    assert TrimStart(c) == c;
    assert TrimEnd(c) == c;
  }

  /**
   * A list field depends only on its items, so a single value and a one-element array
   * give the same text; and the items can be read back by splitting at `", "` when none
   * of them contains a comma.
   */
  lemma ListFieldRecoversItems(f: Field<string>)
    requires |Items(f)| > 0
    requires forall k :: 0 <= k < |Items(f)| ==> ',' !in Items(f)[k]
    ensures ListField(Some(f)) == Some(Join(Items(f), ItemSeparator))
    ensures Split(ListField(Some(f)).value, ItemSeparator) == Items(f)
  {
    SplitJoin(Items(f), ItemSeparator);
  }

  /**
   * The addresses field depends only on the list of addresses, and the rendered
   * addresses can be read back by splitting at `"; "` when none contains a semicolon.
   */
  lemma AddressesRecoverable(f: Field<Address>)
    requires |Items(f)| > 0
    requires forall k :: 0 <= k < |Items(f)| ==> ';' !in RenderAddress(Items(f)[k])
    ensures AddressesField(Some(f)) == Ok(Join(RenderAll(Items(f)), AddressSeparator))
    ensures Split(AddressesField(Some(f)).value, AddressSeparator) == RenderAll(Items(f))
  {
    SplitJoin(RenderAll(Items(f)), AddressSeparator);
  }
}
