/** The item normaliser of the QuickBooks connector, stated as functions: the
    raw `ItemInventoryRet` node, the fail-fast validation, and the property
    map that parsing produces. The lemmas that say what that map holds are in
    module ProductProperties; the imperative class that builds the map step by
    step is in module QBXMLProduct and is proved equal to these functions. */
module ProductSpec {
  import opened Wrappers
  import opened Text

  /** Extension-data names with a meaning (`EXT_WEBSITE_CATEGORY`, `EXT_WEBSITE_HIDE`). */
  const ExtWebsiteCategory: string := "Website Category"
  const ExtWebsiteHide: string := "Hide From Website"

  /** Property keys that parsing sets. */
  const SkuKey: string := "sku"
  const DescriptionKey: string := "description"
  const PriceKey: string := "price"
  const ForSaleKey: string := "for_sale"
  const QuantityKey: string := "quantity"
  const ListIdKey: string := "list_id"
  const VendorNameKey: string := "vendor_name"
  const CategoryKey: string := "website_category"

  /** The keys every successfully parsed product has. */
  const CoreKeys: set<string> :=
    {SkuKey, DescriptionKey, PriceKey, ForSaleKey, QuantityKey, ListIdKey, VendorNameKey}

  /** `PrefVendorRef`: each child may be missing. */
  datatype VendorRef = VendorRef(fullName: Option<string>, listId: Option<string>)

  /** A `DataExtRet` node: an element that may carry `DataExtName`/`DataExtValue`,
      a list of such nodes, or anything else. */
  datatype Ext =
    | Entry(name: Option<string>, value: Option<string>)
    | Items(elems: seq<Ext>)
    | Other

  /** One raw `ItemInventoryRet` node, already decoded; a missing child is None. */
  datatype RawItem = RawItem(
    name: Option<string>,
    salesDesc: Option<string>,
    salesPrice: Option<string>,
    quantityOnHand: Option<int>,
    prefVendorRef: Option<VendorRef>,
    dataExtRet: Option<Ext>)

  /** The fields validation insists on. */
  datatype RequiredField = Name | SalesDesc | SalesPrice | PrefVendorRef | PrefVendorRefFullName

  /** The exceptions the normaliser throws: a missing required field (with the
      item's name once it is known) and a read of a key never set. */
  datatype ProductError =
    | MissingField(field: RequiredField, itemName: Option<string>)
    | PropertyNotFound(key: string)

  /** The property bag: every stored value is text. */
  type Properties = map<string, string>

  /** A named extension entry as the walk meets it. */
  datatype Named = Named(name: string, value: string)

  /** The string cast of a child that may be missing: a missing one reads as "". */
  function TextOf(o: Option<string>): (r: string)
    ensures o.Some? ==> r == o.value
    ensures o.None? ==> r == ""
  {
    o.GetOr("")
  }

  // ---------------------------------------------------------------- validation

  /** The order in which validation looks at the required fields. */
  const CheckOrder: seq<RequiredField> := [Name, SalesDesc, SalesPrice, PrefVendorRef, PrefVendorRefFullName]

  predicate Present(item: RawItem, f: RequiredField) {
    match f
    case Name => item.name.Some?
    case SalesDesc => item.salesDesc.Some?
    case SalesPrice => item.salesPrice.Some?
    case PrefVendorRef => item.prefVendorRef.Some?
    case PrefVendorRefFullName => item.prefVendorRef.Some? && item.prefVendorRef.value.fullName.Some?
  }

  /** `validateProduct`: passes exactly when every required field is present;
      otherwise reports the first missing one in CheckOrder, naming the item
      from the second check on. */
  function ValidateProduct(item: RawItem): (r: Outcome<ProductError>)
    ensures r.Pass? <==> forall f :: Present(item, f)
    ensures r.Fail? ==>
      exists i :: 0 <= i < |CheckOrder|
        && r.error == MissingField(CheckOrder[i], if i == 0 then None else item.name)
        && !Present(item, CheckOrder[i])
        && forall j :: 0 <= j < i ==> Present(item, CheckOrder[j])
  {
    if item.name.None? then
      assert !Present(item, CheckOrder[0]);
      Fail(MissingField(Name, None))
    else if item.salesDesc.None? then
      assert Present(item, CheckOrder[0]) && !Present(item, CheckOrder[1]);
      Fail(MissingField(SalesDesc, item.name))
    else if item.salesPrice.None? then
      assert Present(item, CheckOrder[1]) && !Present(item, CheckOrder[2]);
      Fail(MissingField(SalesPrice, item.name))
    else if item.prefVendorRef.None? then
      assert Present(item, CheckOrder[2]) && !Present(item, CheckOrder[3]);
      Fail(MissingField(PrefVendorRef, item.name))
    else if item.prefVendorRef.value.fullName.None? then
      assert Present(item, CheckOrder[3]) && !Present(item, CheckOrder[4]);
      Fail(MissingField(PrefVendorRefFullName, item.name))
    else Pass
  }

  // ---------------------------------------------------------------- quantity

  /** The text the quantity is stored as; a missing `QuantityOnHand` casts to "". */
  function QuantityText(q: Option<int>): (r: string)
    ensures r == "" <==> q.None?
    ensures q.Some? ==> ParseDecimal(r) == Some(q.value)
  {
    if q.Some? then
      ParseDecimalRoundTrip(q.value);
      DecimalText(q.value)
    else ""
  }

  /** The test `$this->quantity <= 0` on the stored text: "" compares as 0. */
  predicate QuantityAtMostZero(t: string) {
    t == "" || (ParseDecimal(t).Some? && ParseDecimal(t).value <= 0)
  }

  lemma QuantityTestOnStoredText(q: Option<int>)
    ensures QuantityAtMostZero(QuantityText(q)) <==> q.None? || q.value <= 0
  {
  }

  // ---------------------------------------------------------------- vendor

  /** `parseVendor`: `list_id` is reset to "" and replaced by `ListID` when present;
      `vendor_name` is the vendor's `FullName`. */
  function ApplyVendor(p: Properties, v: VendorRef): (r: Properties)
    ensures r.Keys == p.Keys + {ListIdKey, VendorNameKey}
    ensures r[VendorNameKey] == TextOf(v.fullName)
    ensures r[ListIdKey] == if v.listId.Some? then v.listId.value else ""
    ensures forall k :: k in p && k != ListIdKey && k != VendorNameKey ==> r[k] == p[k]
  {
    var p1 := p[ListIdKey := ""][VendorNameKey := TextOf(v.fullName)];
    if v.listId.Some? then p1[ListIdKey := v.listId.value] else p1
  }

  // ---------------------------------------------------------------- extension data

  /** One named entry: the hide name forces `for_sale` to "N", the category name
      sets `website_category`, any other name changes nothing. */
  function ApplyEntry(p: Properties, x: Named): Properties {
    if x.name == ExtWebsiteHide then p[ForSaleKey := "N"]
    else if x.name == ExtWebsiteCategory then p[CategoryKey := x.value]
    else p
  }

  /** `parseDataExtra`: a node with a name is an entry (looked at first), a list
      is walked element by element in order, anything else is ignored. */
  function WalkExt(p: Properties, e: Ext): Properties
    decreases e
  {
    match e
    case Entry(Some(name), value) => ApplyEntry(p, Named(name, TextOf(value)))
    case Items(es) => WalkList(p, es)
    case _ => p
  }

  function WalkList(p: Properties, es: seq<Ext>): Properties
    decreases es
  {
    if |es| == 0 then p else WalkExt(WalkList(p, es[..|es| - 1]), es[|es| - 1])
  }

  /** The named entries of a node, flattened in document order. */
  function Entries(e: Ext): seq<Named>
    decreases e
  {
    match e
    case Entry(Some(name), value) => [Named(name, TextOf(value))]
    case Items(es) => EntriesList(es)
    case _ => []
  }

  function EntriesList(es: seq<Ext>): seq<Named>
    decreases es
  {
    if |es| == 0 then [] else EntriesList(es[..|es| - 1]) + Entries(es[|es| - 1])
  }

  /** A flat sequence of named entries applied one after another. */
  function ApplyEntries(p: Properties, s: seq<Named>): Properties {
    if |s| == 0 then p else ApplyEntry(ApplyEntries(p, s[..|s| - 1]), s[|s| - 1])
  }

  /** Some node of the tree, at any depth, is a hide entry. */
  predicate ContainsHide(e: Ext)
    decreases e
  {
    match e
    case Entry(name, _) => name == Some(ExtWebsiteHide)
    case Items(es) => ContainsHideList(es)
    case Other => false
  }

  predicate ContainsHideList(es: seq<Ext>)
    decreases es
  {
    exists i :: 0 <= i < |es| && ContainsHide(es[i])
  }

  predicate HasHide(s: seq<Named>) {
    exists i :: 0 <= i < |s| && s[i].name == ExtWebsiteHide
  }

  predicate IsCategory(x: Named) {
    x.name == ExtWebsiteCategory
  }

  /** The value of the last category entry, if there is one. */
  function LastCategory(s: seq<Named>): (r: Option<string>)
    ensures r.None? <==> forall i :: 0 <= i < |s| ==> !IsCategory(s[i])
    ensures r.Some? ==>
      exists i :: 0 <= i < |s| && IsCategory(s[i]) && s[i].value == r.value
        && forall j :: i < j < |s| ==> !IsCategory(s[j])
  {
    if |s| == 0 then None
    else if IsCategory(s[|s| - 1]) then Some(s[|s| - 1].value)
    else LastCategory(s[..|s| - 1])
  }

  // ---------------------------------------------------------------- parse

  /** The mapping phase of `parse`: the copied fields, then `for_sale` set to "Y"
      and overwritten with "N" when the stored quantity is at most zero. */
  function ParseFields(p: Properties, item: RawItem): Properties
    requires ValidateProduct(item).Pass?
  {
    var q := QuantityText(item.quantityOnHand);
    var p1 := p[SkuKey := Upper(item.name.value)][DescriptionKey := item.salesDesc.value]
               [PriceKey := item.salesPrice.value][ForSaleKey := "Y"][QuantityKey := q];
    if QuantityAtMostZero(q) then p1[ForSaleKey := "N"] else p1
  }

  /** `parse` after validation has passed, applied to the properties `p` already held:
      mapping, then the vendor, then the extension data when the item has some. */
  function ParseOnto(p: Properties, item: RawItem): Properties
    requires ValidateProduct(item).Pass?
  {
    var p3 := ApplyVendor(ParseFields(p, item), item.prefVendorRef.value);
    if item.dataExtRet.Some? then WalkExt(p3, item.dataExtRet.value) else p3
  }

  /** The properties of a freshly constructed product. */
  function Normalised(item: RawItem): Properties
    requires ValidateProduct(item).Pass?
  {
    ParseOnto(map[], item)
  }

  /** The quantity rule on the raw item: a missing or non-positive quantity. */
  predicate QuantityNotPositive(item: RawItem) {
    item.quantityOnHand.None? || item.quantityOnHand.value <= 0
  }

  /** The item's extension data holds a hide entry at some depth. */
  predicate HiddenByExt(item: RawItem) {
    item.dataExtRet.Some? && ContainsHide(item.dataExtRet.value)
  }

  /** The category the item's extension data selects, if any. */
  function CategoryOf(item: RawItem): Option<string> {
    if item.dataExtRet.Some? then LastCategory(Entries(item.dataExtRet.value)) else None
  }

  /** `__get` on a property map. */
  function Lookup(p: Properties, key: string): (r: Result<string, ProductError>)
    ensures r.Success? <==> key in p
    ensures r.Success? ==> r.value == p[key]
    ensures r.Failure? ==> r.error == PropertyNotFound(key)
  {
    if key in p then Success(p[key]) else Failure(PropertyNotFound(key))
  }

  /** `isSellable` on a property map: reads `for_sale` through `__get`. */
  function Sellable(p: Properties): (r: Result<bool, ProductError>)
    ensures r.Success? <==> ForSaleKey in p
    ensures r.Success? ==> (r.value <==> p[ForSaleKey] == "Y")
    ensures r.Failure? ==> r.error == PropertyNotFound(ForSaleKey)
  {
    match Lookup(p, ForSaleKey)
    case Success(v) => Success(v == "Y")
    case Failure(e) => Failure(e)
  }
}
