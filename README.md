# Barcode scanner core, modelled in Dafny

This project models the core of `EnhancedBarcodeScanner` in `app1.py`, a Streamlit barcode scanner. The core has three methods:

- `preprocess_frame` turns one camera frame into a fixed list of eight labelled image variants: the original, grayscale, and six filters applied to the grayscale image.
- `detect` runs the symbol decoder over each variant. It keeps one symbol per key `type + ":" + text`, where text is the payload's lossy UTF-8 decoding. The symbol kept is the first one met, and keys stay in the order first met, as Python's insertion-ordered dict does.
- `get_product_info` tries four Open Food Facts endpoints in a fixed order. It takes the first response whose shape yields a product dict whose `nutriments` entry is absent or a dict. It fills the result from that product, with a default for each missing field. If nothing matches, it returns `{"barcode": …, "found": False}`.

The project has these modules:

- `Options` (options.dfy): an `Option` type that supports `:-`.
- `JsonValue` (json.dfy): JSON values, plus the Python operators app1.py applies to them (`in`, `[key]`, `[0]`, `len`, `.get`, `== 1`). Each operator returns `None` exactly when Python would raise.
- `Preprocess` (preprocess.dfy): the variant list. An image is described by the filters that produced it.
- `Detection` (detection.dfy): the de-duplication loop. It works on an explicit dict (a `map` plus its insertion order). The loop is proved equal to the specification function `Unique`, and `Unique` has its own lemmas.
- `ProductLookup` (lookup.dfy): the endpoint fallback loop, the Python evaluation of one response, and a separate statement of the response-shape rule and the field mapping. Lemmas connect these.
- `LookupExamples` (lookup_examples.dfy): concrete bodies and what one pass of the loop makes of them.

Foreign calls are parameters:

- `scan` stands for `pyzbar.decode`.
- `text` stands for `bytes.decode('utf-8', errors='ignore')`.
- `fetch` stands for `requests.get(url, timeout=5)` followed by `r.json()`. It yields `Fail` when either call raises.

## Model

| member | source | states |
|---|---|---|
| Preprocess.PreprocessFrame | app1.py:11-43 | Builds the list one append at a time. The result is the variant list: eight entries whose labels are, in order, Original, Grayscale, Blurred, Adaptive Threshold, Binary, Otsu, CLAHE and Sharpened. The first entry is the unmodified frame. |
| Preprocess.Variants | app1.py:12-43 | The variant list of a frame: as many entries as labels, each named by its label in order, with the captured frame first. |
| Preprocess.VariantsShape | app1.py:13-41 | There are always exactly eight variants and their labels are pairwise distinct. The first is the captured frame. Every other one is the grayscale image or one filter applied to the grayscale image, never to the colour frame. |
| Detection.Detect | app1.py:45-59 | The dict loop over all variants and all decoded symbols returns exactly `Unique` of the concatenated decoder output: variant order first, then decoder order within a variant. |
| Detection.Unique | app1.py:56-57 | The specification of the dict: a symbol is appended only when its key is not yet present, so the result is never longer than the input. |
| Detection.UniqueKeySet | app1.py:54-59 | The result holds every key the decoder produced on any variant, and no other key. |
| Detection.UniqueDistinctKeys | app1.py:56-57 | No two entries of the result share a key. |
| Detection.ExactlyOneEntry | app1.py:54-59 | Every key produced on any variant has exactly one entry in the result. |
| Detection.UniqueKeepsFirst | app1.py:56-57 | Each kept symbol is the earliest symbol with its key. A later duplicate never replaces it. |
| Detection.UniqueKeepsOrder | app1.py:59 | The result lists the keys in the order of their first appearance, as `dict.values()` does. |
| Detection.FirstIndex | app1.py:49-57 | The position of the first symbol with a given key: that symbol has the key and no earlier symbol does. |
| Detection.KeyIdentifiesPair | app1.py:52-54 | When neither symbol type contains a colon, two keys are equal exactly when the (type, text) pairs are equal. Both directions are proved. |
| Detection.FirstColon | app1.py:54 | The position of the first colon in a key: no colon comes before it, and a colon is at it unless the key has none. |
| Detection.KeyReadBack | app1.py:52-54 | The key `Key` builds is the type, a colon and the decoded text. For a type with no colon, both parts read back from it: the first colon sits right after the type, and the text follows it. |
| Detection.KeyCollision | app1.py:54-57 | Symbols of type "A:" with text "B" and of type "A" with text ":B" share the key "A::B", so the dict keeps only the first of the two. |
| JsonValue.Contains | app1.py:78 | `item in data` is defined exactly on dicts, lists and strings, and on a dict it tests the keys. Any other value raises. |
| JsonValue.GetItem | app1.py:79 | `data[key]` yields a value exactly when `data` is a dict that holds `key`, and the value is the dict's. |
| JsonValue.IndexZero | app1.py:82 | `xs[0]` on a non-empty list is its first element. Only a list or a string yields anything. |
| JsonValue.Len | app1.py:81 | `len` is defined exactly on strings, lists and dicts. On a list it is the number of elements. |
| JsonValue.DictGet | app1.py:78 | `.get(key, default)` is defined exactly on dicts. A present key yields its value, even null. An absent key yields the default. |
| JsonValue.EqualsOne | app1.py:78 | Python's `== 1` on a JSON value holds exactly for the int 1, True and the float 1.0. |
| ProductLookup.Fill | app1.py:87-101 | The update dict is built exactly when the product is a dict whose `nutriments` is absent or a dict; otherwise a `get` raises. It then has exactly the keys found, name, brand, category, origin, ingredients, image and nutrition, with found set to true and nutrition holding exactly energy, fat, carbs and protein. |
| ProductLookup.FillFollowsMapping | app1.py:88-100 | Each field is the product's value when the key is present and the stated default ("Unknown", "N/A", null) when it is absent. Each nutrition value comes from `nutriments`, or is "N/A". |
| ProductLookup.Field | app1.py:89-99 | `p.get(key, default)` on a dict: the present value (even null), or the default when the key is absent. |
| ProductLookup.ProductCondition | app1.py:78 | On a dict body the test holds exactly when it has `product` and a `status` equal to 1. It can hold only on a dict. |
| ProductLookup.ProductsCondition | app1.py:81 | On a dict body without `products` the test fails. With a `products` list it holds exactly when the list is non-empty. It can hold only on a dict that has `products`. |
| ProductLookup.Evaluate | app1.py:73-107 | One pass of the `try` block: a failed request is caught as an exception. A match comes only from a dict body, and its update has the mapped keys with found set to true. |
| ProductLookup.FromCandidate | app1.py:79-101 | Once a candidate is selected, the pass never reaches `continue`: it fills or raises. It fills exactly when selection did not raise and the candidate is a dict with usable nutriments, and the update is then the field mapping of that candidate. |
| ProductLookup.NonObjectNeverMatches | app1.py:78-84 | A body that is not a dict is skipped or raises. It is never filled from. |
| ProductLookup.ProductBranch | app1.py:78-79 | When the body has `product` and a status equal to 1, the attempt matches exactly when that product is a dict with usable nutriments, and it then fills from that product. |
| ProductLookup.ProductsBranch | app1.py:80-84 | Otherwise, the attempt matches exactly when `products` is a non-empty list whose first element is a dict with usable nutriments, and it then fills from that element. |
| ProductLookup.EvaluateFollowsShapeRule | app1.py:73-107 | One pass of the `try` block matches exactly when the request succeeded and the response-shape rule selects a product dict with usable nutriments. The update is then the field mapping of that product. |
| ProductLookup.FirstMatch | app1.py:72-103 | The first matching attempt: it matches and no earlier one does. When there is none, no attempt matches. |
| ProductLookup.FirstMatchAt | app1.py:72-103 | A matching attempt preceded only by non-matching ones is the first match. |
| ProductLookup.Attempts | app1.py:72-107 | One outcome of the `try` block per URL, in URL order. |
| ProductLookup.AttemptsFollowShapeRule | app1.py:72-107 | The attempt at each URL matches exactly when the response to that URL selects a product dict with usable nutriments. |
| ProductLookup.NotFound | app1.py:62 | The initial `info` has exactly the keys barcode and found, holding the barcode and False. |
| ProductLookup.LookupResult | app1.py:62-109 | With no match the result has only the keys barcode and found, with found false. With a first match, the result has the initial keys plus the keys of that endpoint's update, the update's values win, and the barcode stays when the update does not set it. |
| ProductLookup.LookupOutcome | app1.py:62-109 | With no match the result is exactly `{"barcode": barcode, "found": False}`. With a first match, that endpoint returned a body whose shape selects a product. The result then has exactly nine keys, keeps the barcode, sets found to true, and fills every field from that product. |
| ProductLookup.FoundIffSomeEndpointMatches | app1.py:72-109 | `found` is true exactly when some endpoint returns a body that selects a product dict with usable nutriments. |
| ProductLookup.LaterEndpointsIgnored | app1.py:103 | Once an endpoint matches, the responses of later endpoints do not affect the result. |
| ProductLookup.TryEndpoints | app1.py:72-109 | The loop over any endpoint list, given the `try` block as a step per URL, returns the lookup result for those outcomes. The URLs tried are the prefix up to and including the first match, or all of them. |
| ProductLookup.GetProductInfo | app1.py:61-109 | The loop returns the lookup result for the four endpoints in their fixed order. The URLs requested are the prefix up to and including the first match, or all four when nothing matches. |
| ProductLookup.Urls | app1.py:65-70 | Four endpoints, tried in the fixed order: v2 product, v0 product, search, India database. |
| ProductLookup.UrlsCarryBarcode | app1.py:65-70 | Every one of the four URLs contains the barcode. |
| ProductLookup.UrlsDistinct | app1.py:65-70 | The four URLs are pairwise different for every barcode, so each endpoint gets its own response. |
| LookupExamples.ProductBodyFilled | app1.py:78-99 | A `status: 1` product body is filled from. A missing nutrition value becomes "N/A". |
| LookupExamples.SearchBodyFilled | app1.py:81-90 | A search answer selects its first listed product. A missing brand becomes "Unknown". |
| LookupExamples.FloatStatusAndNullField | app1.py:78-90 | A float status 1.0 counts as 1. A field that is present but null stays null and does not take its default. |
| LookupExamples.RejectedProducts | app1.py:78-107 | A list-valued `nutriments` makes the update raise. A status of the string "1" is skipped. |
| LookupExamples.RejectedBodies | app1.py:78-107 | A list body raises on `.get`. An empty `products` list is skipped. A string body containing "product" raises. |

## Left out

- The OpenCV filters (`cvtColor`, `GaussianBlur`, `adaptiveThreshold`, `threshold`, CLAHE, `filter2D`) are not computed. An image is the chain of filters that produced it, with each filter's parameters recorded in its constructor name. Pixel arithmetic is floating point and lives in a foreign library.
- `pyzbar.decode` is the parameter `scan`. Its decoding is foreign code.
- Detection.Symbol keeps only the type, the payload and the bounding box of a decoded pyzbar record. Its `polygon`, `quality` and `orientation` are dropped, and the de-duplication never reads them.
- `bytes.decode('utf-8', errors='ignore')` is the parameter `text`. The model has no Unicode codec.
- `requests.get` with its 5-second timeout, and `r.json()`, are the parameter `fetch`. Network I/O and JSON parsing are foreign code, and every exception either raises is the single outcome `Fail`.
- The `print("API Error:", e)` logging in the `except` branch is not modelled. It only writes to standard output.
- The Streamlit user interface, the camera loop and the rendering (app1.py:112 onward) are not part of this model.
- ProductLookup.Fill evaluates `p.get("nutriments", {})` once rather than four times. The expression is pure, so the result is the same. On a dict product the six top-level `get` calls cannot raise, so Fill decides failure by the two checks that can.
- JSON numbers are modelled as `int` or `real`. Floating-point rounding is not modelled; it only matters for `status == 1`, which is modelled exactly for 1, 1.0 and True.
- ProductLookup.GetProductInfo: the returned dict is a `map`, so the key order of `info` is not modelled. The order of the values `detect` returns is modelled.
- Detection.KeyIdentifiesPair requires that symbol types contain no colon, which holds for the decoder's symbology names. Without that requirement, two different (type, text) pairs can share a key, and `detect` then keeps only the first (Detection.KeyCollision).
- ProductLookup.Urls: the four endpoint templates are stated literally. Beyond their number, their distinctness and that each contains the barcode, no lemma reasons about their characters.
