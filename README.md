# QuickBooks item normaliser, modelled in Dafny

This project models `QBXML_Product`, the class of the QBXML connector that
turns one raw `ItemInventoryRet` node of a QuickBooks inventory-item query
response into a flat product record. Construction validates five required
fields in a fixed order and throws on the first one missing; it then copies
the fields into a property bag of strings (`sku` is the upper-cased `Name`),
sets `for_sale` to `'N'` when the stored quantity is at most zero, reads the
preferred vendor (`list_id` defaults to `''`), and walks the `DataExtRet`
extension data recursively: a `'Hide From Website'` entry forces `for_sale`
to `'N'`, a `'Website Category'` entry sets `website_category`, everything
else is ignored. `__get` returns a stored property or throws, and
`isSellable` is `for_sale == 'Y'`.

Layout:

- `wrappers.dfy` (module `Wrappers`): `Option`, `Result`, `Outcome`; the
  PHP exceptions become `Failure`/`Fail` values.
- `text.dfy` (module `Text`): ASCII `strtoupper`, the decimal text an integer
  quantity is stored as, and the reader used when the stored text is compared
  with 0.
- `product_spec.dfy` (module `ProductSpec`): the decoded item (`RawItem`,
  `VendorRef`, the extension tree `Ext`), validation, and the property map
  that parsing produces, as functions.
- `product_lemmas.dfy` (module `ProductProperties`): what that map holds.
- `product.dfy` (module `QBXMLProduct`): the class `Product` whose field
  `properties` is updated through `Set` (`__set`) by `Parse`, `ParseVendor`
  and the recursive `ParseDataExtra`, each proved to end in the state the
  matching function of `ProductSpec` describes; `NewProduct` is the
  constructor.

Where the design description and the code differ, the model follows the code:

- Only presence is checked. An empty `Name` passes validation, and
  `QuantityOnHand` is never required. A missing quantity is stored as `''`,
  and `'' <= 0` holds in PHP, so such an item is not for sale.
- When several `'Website Category'` entries appear, the last one in document
  order wins. Later entries do overwrite earlier ones.
- The `for_sale` test compares the stored quantity text with 0. The model
  does the same: it reads the stored text back with `ParseDecimal`.

## Model

| member | source | states |
|---|---|---|
| ProductSpec.TextOf | Product.php:62-63 | the string cast of a child: its text when present, `''` when missing |
| ProductSpec.QuantityText | Product.php:111 | the stored quantity is `''` exactly when `QuantityOnHand` is missing, and otherwise reads back as the quantity |
| ProductSpec.QuantityAtMostZero | Product.php:113 | no contract of its own; QuantityTestOnStoredText states that it holds exactly for a missing or non-positive quantity |
| ProductSpec.ApplyEntry | Product.php:214-233 | no contract of its own; ApplyEntriesForSale, ApplyEntriesCategory, ApplyEntriesOtherKeys and ApplyUnknownEntries state it |
| ProductSpec.WalkExt | Product.php:212-241 | no contract of its own; WalkIsFold, WalkForSale, WalkCategory, WalkOtherKeys and WalkUnknownIsNoOp state it |
| ProductSpec.WalkList | Product.php:234-237 | no contract of its own; WalkIsFold (through the list case) and HideIsSticky state it |
| ProductSpec.ParseFields | Product.php:107-115 | no contract of its own; NormalisedFields and NormalisedForSale state the fields it sets and the quantity rule |
| ProductSpec.ParseOnto | Product.php:103-124 | no contract of its own; Product.Parse is proved to end in it, and the Normalised lemmas state what it holds |
| ProductSpec.Normalised | Product.php:44-51 | no contract of its own; NormalisedFields, NormalisedForSale, NormalisedCategory, NormalisedKeys, NormalisedLookup and NormalisedSellable state it |
| QBXMLProduct.Product.Empty | Product.php:30-34 | the object before `parse` holds no properties |
| Text.Upper | Product.php:107 | the result has the input's length and each character is the ASCII upper-case form of the input's character at the same place |
| Text.UpperIdempotent | Product.php:107 | upper-casing is idempotent and leaves no ASCII lower-case letter, so `sku` is already upper case |
| Text.ParseDecimalRoundTrip | Product.php:111-113 | reading back the stored text of any integer quantity gives that integer |
| ProductSpec.ValidateProduct | Product.php:138-181 | passes exactly when Name, SalesDesc, SalesPrice, PrefVendorRef and PrefVendorRef.FullName are all present; otherwise fails with the first missing field in that order, all earlier ones present, carrying the item's name from the second check on |
| ProductSpec.QuantityTestOnStoredText | Product.php:111-115 | the `<= 0` test on the stored quantity text holds exactly when the quantity is missing or at most zero |
| ProductSpec.ApplyVendor | Product.php:190-201 | `vendor_name` is the vendor's FullName; `list_id` is ListID when present and `''` otherwise; no other key changes |
| ProductSpec.LastCategory | Product.php:223-229 | None exactly when no entry is a category entry; otherwise the value of a category entry with no category entry after it |
| ProductSpec.Lookup | Product.php:74-83 | succeeds exactly for a stored key, with the stored text; otherwise fails with PropertyNotFound for that key |
| ProductSpec.Sellable | Product.php:91-94 | succeeds exactly when `for_sale` is stored, with true exactly when it is `'Y'`; otherwise PropertyNotFound("for_sale") |
| ProductProperties.ApplyEntriesForSale | Product.php:214-222 | after a run of entries `for_sale` is `'N'` if any entry is the hide entry, otherwise its value before |
| ProductProperties.ApplyEntriesCategory | Product.php:223-229 | after a run of entries `website_category` is present exactly when it was before or some entry is a category entry, and holds the last category value |
| ProductProperties.ApplyEntriesOtherKeys | Product.php:214-233 | entries change no key other than `for_sale` and `website_category` |
| ProductProperties.ApplyUnknownEntries | Product.php:230-232 | entries with other names leave the map unchanged |
| ProductProperties.WalkIsFold | Product.php:212-241 | the recursive walk equals applying the tree's named entries one by one in document order |
| ProductProperties.HideAmongEntries | Product.php:214-237 | the tree holds a hide entry at some depth exactly when its flattened entries hold one |
| ProductProperties.WalkForSale | Product.php:212-241 | after the walk `for_sale` is `'N'` if the tree holds a hide entry at any depth, otherwise unchanged |
| ProductProperties.HideIsSticky | Product.php:234-237 | once `for_sale` is `'N'` part-way through a list, it is still `'N'` after the whole list |
| ProductProperties.WalkCategory | Product.php:223-237 | after the walk `website_category` is the value of the last category entry in document order; without one the key is untouched |
| ProductProperties.WalkOtherKeys | Product.php:212-241 | the walk changes no key other than `for_sale` and `website_category` |
| ProductProperties.WalkUnknownIsNoOp | Product.php:230-238 | a tree with neither a hide nor a category entry, whatever its shape, leaves the map unchanged |
| ProductProperties.NormalisedFields | Product.php:107-111 | a parsed product has all core keys; `sku` is the upper-cased Name; description, price, quantity and vendor_name are the item's values; `list_id` is ListID or `''` |
| ProductProperties.NormalisedForSale | Product.php:110-121 | `for_sale` is `'N'` exactly when the quantity is missing or at most zero or a hide entry appears at any depth, else `'Y'` |
| ProductProperties.NormalisedCategory | Product.php:119-121 | `website_category` is set exactly when the extension data holds a category entry, to the last one's value |
| ProductProperties.NormalisedKeys | Product.php:103-124 | a parsed product holds exactly the seven core keys, plus `website_category` when a category entry exists |
| ProductProperties.NormalisedLookup | Product.php:74-83 | `__get` on a parsed product succeeds exactly for the keys parsing set, and fails with PropertyNotFound otherwise |
| ProductProperties.NormalisedSellable | Product.php:91-94 | `isSellable` on a parsed product succeeds, true exactly when the quantity is positive and no hide entry appears |
| ProductProperties.WidgetExample | Product.php:103-124 | a worked item with quantity 0 and a hide entry normalises to the expected record, with no `website_category` |
| QBXMLProduct.Product.Set | Product.php:60-64 | stores the text under the key and changes nothing else |
| QBXMLProduct.Product.Get | Product.php:74-83 | returns the stored text exactly when the key is stored, else PropertyNotFound |
| QBXMLProduct.Product.IsSellable | Product.php:91-94 | reads `for_sale` through `Get`; true exactly when it is `'Y'`, failure when it was never set |
| QBXMLProduct.Product.Parse | Product.php:103-124 | returns the validation outcome; on failure nothing is stored; on success the map is the mapping, vendor and extension phases applied to the old map |
| QBXMLProduct.Product.ParseVendor | Product.php:190-201 | the new map is the old one with `list_id` and `vendor_name` set as ApplyVendor states |
| QBXMLProduct.Product.ParseDataExtra | Product.php:212-241 | the new map is the walk of the tree from the old map; lists are handled element by element in a loop |
| QBXMLProduct.NewProduct | Product.php:44-51 | fails exactly when validation fails, with its error; otherwise a fresh product whose properties are the normalised map of the item |

## Left out

- Parser.php is not part of this model. It loads the XML with SimpleXML, follows the fixed path `QBXMLMsgsRs->ItemInventoryQueryRs->ItemInventoryRet`, and counts the items. That behaviour belongs to the SimpleXML library.
- SimpleXML element semantics are not modelled. This covers what `isset` means on an element and how repeated `DataExtRet` children surface. `is_array` is always false for a `SimpleXMLElement`, which is the documented input type (Product.php:41). With that input only the first `DataExtRet` node is examined, and the list branch (Product.php:234-237) runs only when a caller passes a PHP array. The model takes the item already decoded as `RawItem`, where an extension node is a named entry, a list, or something else, so its list case describes that array input.
- A node with a name that is also a list cannot be written in the model. In PHP an array has no properties, so a node is never both. The source checks for a name before it checks for a list, and `WalkExt` checks in the same order.
- A missing child read as text is `''` (`TextOf`). This covers `DataExtValue` and a missing `FullName` in the vendor step.
- ProductSpec.QuantityText: `QuantityOnHand` is an integer. It is stored as its canonical decimal numeral, so raw text such as `"05"` or a decimal quantity is not modelled.
- ProductSpec.QuantityAtMostZero: PHP's loose comparison of arbitrary text with 0 is not modelled. Only `''` and integer numerals are handled, and those are the only texts the model stores.
- The wording of exception messages is not modelled. An error is a kind, the missing field, and the item's name when it is known.
- Text.Upper: `strtoupper` is ASCII-only here. Locale-dependent upper-casing is not modelled.
- `unset($this->product)` after parsing is not modelled. It only frees memory.
- `__set` takes any value and casts it to a string. In the model every value is already text when it is stored.
