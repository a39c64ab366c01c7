/** What the property map of a parsed product holds: the walk over the
    extension data is a left-to-right fold of its named entries, the hide
    override wins over the quantity rule and is never undone, the category is
    the last one met, and every other key is set once from the raw item. */
module ProductProperties {
  import opened Wrappers
  import opened Text
  import opened ProductSpec

  // ---------------------------------------------------------------- flat entries

  lemma {:induction false} ApplyEntriesAppend(p: Properties, a: seq<Named>, b: seq<Named>)
    ensures ApplyEntries(p, a + b) == ApplyEntries(ApplyEntries(p, a), b)
    decreases |b|
  {
    if |b| == 0 {
      assert a + b == a;
    } else {
      assert (a + b)[..|a + b| - 1] == a + b[..|b| - 1];
      ApplyEntriesAppend(p, a, b[..|b| - 1]);
    }
  }

  /** After a run of entries `for_sale` is "N" if one of them is the hide entry,
      and otherwise what it was before. */
  lemma {:induction false} ApplyEntriesForSale(p: Properties, s: seq<Named>)
    requires ForSaleKey in p
    ensures ForSaleKey in ApplyEntries(p, s)
    ensures ApplyEntries(p, s)[ForSaleKey] == if HasHide(s) then "N" else p[ForSaleKey]
  {
    if |s| > 0 {
      var init := s[..|s| - 1];
      ApplyEntriesForSale(p, init);
      assert forall i :: 0 <= i < |init| ==> init[i] == s[i];
      assert HasHide(s) <==> HasHide(init) || s[|s| - 1].name == ExtWebsiteHide;
    }
  }

  /** After a run of entries `website_category` holds the last category value,
      or what it held before when there is no category entry. */
  lemma {:induction false} ApplyEntriesCategory(p: Properties, s: seq<Named>)
    ensures CategoryKey in ApplyEntries(p, s) <==> CategoryKey in p || LastCategory(s).Some?
    ensures LastCategory(s).Some? ==> ApplyEntries(p, s)[CategoryKey] == LastCategory(s).value
    ensures LastCategory(s).None? && CategoryKey in p ==> ApplyEntries(p, s)[CategoryKey] == p[CategoryKey]
  {
    if |s| > 0 {
      ApplyEntriesCategory(p, s[..|s| - 1]);
    }
  }

  /** Entries touch only `for_sale` and `website_category`. */
  lemma {:induction false} ApplyEntriesOtherKeys(p: Properties, s: seq<Named>)
    ensures ApplyEntries(p, s) - {ForSaleKey, CategoryKey} == p - {ForSaleKey, CategoryKey}
  {
    if |s| > 0 {
      ApplyEntriesOtherKeys(p, s[..|s| - 1]);
    }
  }

  /** Entries whose names are neither the hide name nor the category name change nothing. */
  lemma {:induction false} ApplyUnknownEntries(p: Properties, s: seq<Named>)
    requires forall i :: 0 <= i < |s| ==> s[i].name != ExtWebsiteHide && s[i].name != ExtWebsiteCategory
    ensures ApplyEntries(p, s) == p
  {
    if |s| > 0 {
      ApplyUnknownEntries(p, s[..|s| - 1]);
    }
  }

  // ---------------------------------------------------------------- the walk

  /** The recursive walk applies the flattened entries in document order. */
  lemma {:induction false} WalkIsFold(p: Properties, e: Ext)
    ensures WalkExt(p, e) == ApplyEntries(p, Entries(e))
    decreases e
  {
    match e
    case Entry(Some(name), value) =>
      assert [Named(name, TextOf(value))][..0] == [];
    case Items(es) => WalkListIsFold(p, es);
    case _ =>
  }

  lemma {:induction false} WalkListIsFold(p: Properties, es: seq<Ext>)
    ensures WalkList(p, es) == ApplyEntries(p, EntriesList(es))
    decreases es
  {
    if |es| > 0 {
      var init, last := es[..|es| - 1], es[|es| - 1];
      WalkListIsFold(p, init);
      WalkIsFold(WalkList(p, init), last);
      ApplyEntriesAppend(p, EntriesList(init), Entries(last));
    }
  }

  /** A hide entry somewhere in the tree is a hide entry among the flattened entries. */
  lemma {:induction false} HideAmongEntries(e: Ext)
    ensures ContainsHide(e) <==> HasHide(Entries(e))
    decreases e
  {
    match e
    case Entry(name, value) =>
      if name.Some? { assert Entries(e)[0].name == name.value; }
    case Items(es) => HideAmongEntriesList(es);
    case Other =>
  }

  lemma {:induction false} HideAmongEntriesList(es: seq<Ext>)
    ensures ContainsHideList(es) <==> HasHide(EntriesList(es))
    decreases es
  {
    if |es| > 0 {
      var init, last := es[..|es| - 1], es[|es| - 1];
      HideAmongEntriesList(init);
      HideAmongEntries(last);
      var a, b := EntriesList(init), Entries(last);
      assert EntriesList(es) == a + b;
      if HasHide(a + b) {
        var i :| 0 <= i < |a + b| && (a + b)[i].name == ExtWebsiteHide;
        if i < |a| { assert a[i] == (a + b)[i]; } else { assert b[i - |a|] == (a + b)[i]; }
      }
      if HasHide(a) {
        var i :| 0 <= i < |a| && a[i].name == ExtWebsiteHide;
        assert (a + b)[i] == a[i];
      }
      if HasHide(b) {
        var i :| 0 <= i < |b| && b[i].name == ExtWebsiteHide;
        assert (a + b)[|a| + i] == b[i];
      }
      if ContainsHideList(es) {
        var i :| 0 <= i < |es| && ContainsHide(es[i]);
        if i < |init| { assert init[i] == es[i]; }
      }
      if ContainsHideList(init) {
        var i :| 0 <= i < |init| && ContainsHide(init[i]);
        assert es[i] == init[i];
      }
    }
  }

  /** `for_sale` after the walk: "N" when the tree holds a hide entry at any depth,
      otherwise unchanged. */
  lemma WalkForSale(p: Properties, e: Ext)
    requires ForSaleKey in p
    ensures ForSaleKey in WalkExt(p, e)
    ensures WalkExt(p, e)[ForSaleKey] == if ContainsHide(e) then "N" else p[ForSaleKey]
  {
    WalkIsFold(p, e);
    HideAmongEntries(e);
    ApplyEntriesForSale(p, Entries(e));
  }

  lemma {:induction false} WalkListAppend(p: Properties, a: seq<Ext>, b: seq<Ext>)
    ensures WalkList(p, a + b) == WalkList(WalkList(p, a), b)
    decreases |b|
  {
    if |b| == 0 {
      assert a + b == a;
    } else {
      assert (a + b)[..|a + b| - 1] == a + b[..|b| - 1];
      WalkListAppend(p, a, b[..|b| - 1]);
    }
  }

  /** The hide override is sticky: once `for_sale` is "N" part-way through a list,
      no later element of the list sets it back. */
  lemma HideIsSticky(p: Properties, es: seq<Ext>, i: nat)
    requires i <= |es|
    requires ForSaleKey in WalkList(p, es[..i]) && WalkList(p, es[..i])[ForSaleKey] == "N"
    ensures ForSaleKey in WalkList(p, es) && WalkList(p, es)[ForSaleKey] == "N"
  {
    var q := WalkList(p, es[..i]);
    assert es == es[..i] + es[i..];
    WalkListAppend(p, es[..i], es[i..]);
    WalkForSale(q, Items(es[i..]));
  }

  /** `website_category` after the walk is the value of the last category entry in
      document order; without one the key is left as it was. */
  lemma WalkCategory(p: Properties, e: Ext)
    ensures CategoryKey in WalkExt(p, e) <==> CategoryKey in p || LastCategory(Entries(e)).Some?
    ensures LastCategory(Entries(e)).Some? ==> WalkExt(p, e)[CategoryKey] == LastCategory(Entries(e)).value
    ensures LastCategory(Entries(e)).None? && CategoryKey in p ==> WalkExt(p, e)[CategoryKey] == p[CategoryKey]
  {
    WalkIsFold(p, e);
    ApplyEntriesCategory(p, Entries(e));
  }

  /** The walk changes no key other than `for_sale` and `website_category`. */
  lemma WalkOtherKeys(p: Properties, e: Ext)
    ensures WalkExt(p, e) - {ForSaleKey, CategoryKey} == p - {ForSaleKey, CategoryKey}
  {
    WalkIsFold(p, e);
    ApplyEntriesOtherKeys(p, Entries(e));
  }

  /** Unknown names and shapes are ignored: a tree with no hide or category entry
      leaves the properties as they were. */
  lemma WalkUnknownIsNoOp(p: Properties, e: Ext)
    requires forall x :: x in Entries(e) ==> x.name != ExtWebsiteHide && x.name != ExtWebsiteCategory
    ensures WalkExt(p, e) == p
  {
    WalkIsFold(p, e);
    ApplyUnknownEntries(p, Entries(e));
  }

  // ---------------------------------------------------------------- parsed products

  /** Keys other than `for_sale` and `website_category` are fixed before the walk. */
  lemma ParseOntoOtherKeys(p: Properties, item: RawItem)
    requires ValidateProduct(item).Pass?
    ensures ParseOnto(p, item) - {ForSaleKey, CategoryKey}
         == ApplyVendor(ParseFields(p, item), item.prefVendorRef.value) - {ForSaleKey, CategoryKey}
  {
    if item.dataExtRet.Some? {
      WalkOtherKeys(ApplyVendor(ParseFields(p, item), item.prefVendorRef.value), item.dataExtRet.value);
    }
  }

  /** On success `sku` is the upper-cased `Name`; `description`, `price`, `quantity`
      and `vendor_name` are the item's text; `list_id` is `ListID` or "". */
  lemma NormalisedFields(item: RawItem)
    requires ValidateProduct(item).Pass?
    ensures CoreKeys <= Normalised(item).Keys
    ensures Normalised(item)[SkuKey] == Upper(item.name.value)
    ensures Normalised(item)[DescriptionKey] == item.salesDesc.value
    ensures Normalised(item)[PriceKey] == item.salesPrice.value
    ensures Normalised(item)[QuantityKey] == QuantityText(item.quantityOnHand)
    ensures Normalised(item)[VendorNameKey] == item.prefVendorRef.value.fullName.value
    ensures Normalised(item)[ListIdKey] == TextOf(item.prefVendorRef.value.listId)
  {
    var r := Normalised(item);
    var before := ApplyVendor(ParseFields(map[], item), item.prefVendorRef.value);
    var others := {ForSaleKey, CategoryKey};
    ParseOntoOtherKeys(map[], item);
    forall k | k in CoreKeys && k != ForSaleKey
      ensures k in r && r[k] == before[k]
    {
      assert k in before - others;
      assert (r - others)[k] == (before - others)[k];
    }
    if item.dataExtRet.Some? {
      WalkForSale(before, item.dataExtRet.value);
    }
  }

  /** `for_sale` is "N" exactly when the quantity is missing or at most zero, or the
      extension data holds a hide entry at any depth; otherwise "Y". */
  lemma NormalisedForSale(item: RawItem)
    requires ValidateProduct(item).Pass?
    ensures ForSaleKey in Normalised(item)
    ensures Normalised(item)[ForSaleKey] == if QuantityNotPositive(item) || HiddenByExt(item) then "N" else "Y"
  {
    QuantityTestOnStoredText(item.quantityOnHand);
    var before := ApplyVendor(ParseFields(map[], item), item.prefVendorRef.value);
    assert before[ForSaleKey] == if QuantityNotPositive(item) then "N" else "Y";
    if item.dataExtRet.Some? {
      WalkForSale(before, item.dataExtRet.value);
    }
  }

  /** `website_category` is set exactly when the extension data holds a category
      entry, and then holds the value of the last one in document order. */
  lemma NormalisedCategory(item: RawItem)
    requires ValidateProduct(item).Pass?
    ensures CategoryKey in Normalised(item) <==> CategoryOf(item).Some?
    ensures CategoryOf(item).Some? ==> Normalised(item)[CategoryKey] == CategoryOf(item).value
  {
    var before := ApplyVendor(ParseFields(map[], item), item.prefVendorRef.value);
    assert CategoryKey !in before;
    if item.dataExtRet.Some? {
      WalkCategory(before, item.dataExtRet.value);
    }
  }

  /** A parsed product holds exactly the core keys, plus `website_category` when
      the extension data selects one. */
  lemma NormalisedKeys(item: RawItem)
    requires ValidateProduct(item).Pass?
    ensures Normalised(item).Keys == CoreKeys + if CategoryOf(item).Some? then {CategoryKey} else {}
  {
    var r := Normalised(item);
    NormalisedFields(item);
    NormalisedCategory(item);
    ParseOntoOtherKeys(map[], item);
    var before := ApplyVendor(ParseFields(map[], item), item.prefVendorRef.value);
    assert before.Keys == CoreKeys;
    forall k | k in r
      ensures k in CoreKeys || k == CategoryKey
    {
      if k != ForSaleKey && k != CategoryKey {
        assert k in r - {ForSaleKey, CategoryKey};
      }
    }
  }

  /** `__get` on a parsed product succeeds exactly for the keys parsing set. */
  lemma NormalisedLookup(item: RawItem, key: string)
    requires ValidateProduct(item).Pass?
    ensures Lookup(Normalised(item), key).Success?
        <==> key in CoreKeys || (key == CategoryKey && CategoryOf(item).Some?)
    ensures Lookup(Normalised(item), key).Failure? ==> Lookup(Normalised(item), key).error == PropertyNotFound(key)
  {
    NormalisedKeys(item);
  }

  /** `isSellable` on a parsed product: true exactly when the quantity is positive
      and no hide entry appears. */
  lemma NormalisedSellable(item: RawItem)
    requires ValidateProduct(item).Pass?
    ensures Sellable(Normalised(item)) == Success(!QuantityNotPositive(item) && !HiddenByExt(item))
  {
    NormalisedForSale(item);
  }

  /** A worked item: quantity 0 and a hide entry give `for_sale` "N", the name is
      upper-cased, a vendor without `ListID` gives an empty `list_id`, and no
      category entry means no `website_category` key. */
  lemma WidgetExample()
    ensures var item := RawItem(Some("widget-1"), Some("A widget"), Some("9.99"), Some(0),
                                Some(VendorRef(Some("Acme"), None)),
                                Some(Items([Entry(Some(ExtWebsiteHide), Some("anything"))])));
      ValidateProduct(item).Pass?
      && Normalised(item) == map[SkuKey := "WIDGET-1", DescriptionKey := "A widget", PriceKey := "9.99",
                                 ForSaleKey := "N", QuantityKey := "0", ListIdKey := "",
                                 VendorNameKey := "Acme"]
  {
    var item := RawItem(Some("widget-1"), Some("A widget"), Some("9.99"), Some(0),
                        Some(VendorRef(Some("Acme"), None)),
                        Some(Items([Entry(Some(ExtWebsiteHide), Some("anything"))])));
    var ext := Items([Entry(Some(ExtWebsiteHide), Some("anything"))]);
    assert Entries(ext) == [Named(ExtWebsiteHide, "anything")] by {
      var es := ext.elems;
      assert es[..0] == [] && EntriesList(es[..0]) == [];
      assert Entries(es[0]) == [Named(ExtWebsiteHide, "anything")];
    }
    assert !IsCategory(Entries(ext)[0]);
    assert CategoryOf(item).None?;
    NormalisedKeys(item);
    NormalisedFields(item);
    NormalisedForSale(item);
    assert Upper("widget-1") == "WIDGET-1";
  }
}
