/** `QBXML_Product`: one normalised QuickBooks item, held as a map of text
    properties that `parse` fills step by step through `__set`. Each method is
    proved to leave the map equal to the matching function of ProductSpec. */
module QBXMLProduct {
  import opened Wrappers
  import opened Text
  import opened ProductSpec

  class Product {
    /** Every property set so far, by key. */
    var properties: Properties

    /** The object before `parse` has stored anything. */
    constructor Empty()
      ensures properties == map[]
    {
      properties := map[];
    }

    /** `__set`: store `value` (already cast to text) under `key`. */
    method Set(key: string, value: string)
      modifies this
      ensures properties == old(properties)[key := value]
    {
      properties := properties[key := value];
    }

    /** `__get`: the stored text, or PropertyNotFound for a key never set. */
    method Get(key: string) returns (r: Result<string, ProductError>)
      ensures r == Lookup(properties, key)
    {
      if key in properties {
        r := Success(properties[key]);
      } else {
        r := Failure(PropertyNotFound(key));
      }
    }

    /** `isSellable`: `for_sale` read through `__get` and compared with "Y". */
    method IsSellable() returns (r: Result<bool, ProductError>)
      ensures r == Sellable(properties)
    {
      var forSale := Get(ForSaleKey);
      match forSale
      case Success(v) => r := Success(v == "Y");
      case Failure(e) => r := Failure(e);
    }

    /** `parse`: validate, then map the fields, apply the quantity rule to the
        stored quantity, read the vendor and walk the extension data. A failed
        validation stores nothing. */
    method Parse(item: RawItem) returns (outcome: Outcome<ProductError>)
      modifies this
      ensures outcome == ValidateProduct(item)
      ensures outcome.Fail? ==> properties == old(properties)
      ensures outcome.Pass? ==> properties == ParseOnto(old(properties), item)
    {
      outcome := ValidateProduct(item);
      if outcome.Fail? {
        return;
      }
      Set(SkuKey, Upper(item.name.value));
      Set(DescriptionKey, item.salesDesc.value);
      Set(PriceKey, item.salesPrice.value);
      Set(ForSaleKey, "Y");
      Set(QuantityKey, QuantityText(item.quantityOnHand));
      if QuantityAtMostZero(properties[QuantityKey]) {
        Set(ForSaleKey, "N");
      }
      ParseVendor(item.prefVendorRef.value);
      if item.dataExtRet.Some? {
        ParseDataExtra(item.dataExtRet.value);
      }
    }

    /** `parseVendor`: `list_id` defaults to "", `vendor_name` is the full name,
        and a present `ListID` replaces the default. */
    method ParseVendor(vendor: VendorRef)
      modifies this
      ensures properties == ApplyVendor(old(properties), vendor)
    {
      Set(ListIdKey, "");
      Set(VendorNameKey, TextOf(vendor.fullName));
      if vendor.listId.Some? {
        Set(ListIdKey, vendor.listId.value);
      }
    }

    /** `parseDataExtra`: a named node is handled as an entry, a list is walked
        element by element, anything else is ignored. */
    method ParseDataExtra(e: Ext)
      modifies this
      ensures properties == WalkExt(old(properties), e)
      decreases e
    {
      match e
      case Entry(Some(name), value) =>
        if name == ExtWebsiteHide {
          Set(ForSaleKey, "N");
        } else if name == ExtWebsiteCategory {
          Set(CategoryKey, TextOf(value));
        }
      case Items(es) =>
        for i := 0 to |es|
          invariant properties == WalkList(old(properties), es[..i])
        {
          assert es[..i + 1][..i] == es[..i];
          ParseDataExtra(es[i]);
        }
        assert es[..|es|] == es;
      case _ =>
    }
  }

  /** `__construct`: a product parsed from `item`, or the validation failure it throws. */
  method NewProduct(item: RawItem) returns (r: Result<Product, ProductError>)
    ensures r.Failure? <==> ValidateProduct(item).Fail?
    ensures r.Failure? ==> r.error == ValidateProduct(item).error
    ensures r.Success? ==> fresh(r.value) && r.value.properties == Normalised(item)
  {
    var product := new Product.Empty();
    var outcome := product.Parse(item);
    match outcome
    case Fail(e) => r := Failure(e);
    case Pass => r := Success(product);
  }
}
