/** `EnhancedBarcodeScanner.get_product_info`: try four endpoints in a fixed
    order, accept the first response whose shape yields a product dict whose
    `nutriments` is absent or a dict, and fill the result from it with
    per-field defaults. The HTTP request and the JSON
    parsing of one URL are the parameter `fetch`. */
module ProductLookup {
  import opened Options
  import opened JsonValue

  /** One request: `requests.get` or `r.json()` raised, or the parsed body. */
  datatype Response = Fail | Body(data: Json)

  /** One pass of the loop body: the dict for `info.update`, the `continue` of
      the else branch, or an exception caught by the `except` clause. */
  datatype Attempt = Matched(update: map<string, Json>) | NoMatch | Raised

  /** The endpoints, in the order they are tried. */
  function Urls(barcode: string): (r: seq<string>)
    ensures |r| == 4
  {
    [ "https://world.openfoodfacts.org/api/v2/product/" + barcode,
      "https://world.openfoodfacts.org/api/v0/product/" + barcode + ".json",
      "https://world.openfoodfacts.org/cgi/search.pl?search_terms=" + barcode
        + "&search_simple=1&action=process&json=1",
      "https://in.openfoodfacts.org/api/v0/product/" + barcode + ".json" ]
  }

  /** `b` occurs in `pre + b + post`. */
  lemma {:induction false} SubstringOfConcat(pre: string, b: string, post: string)
    ensures IsSubstring(b, pre + b + post)
    decreases |pre|
  {
    if pre != [] {
      assert (pre + b + post)[1..] == pre[1..] + b + post;
      SubstringOfConcat(pre[1..], b, post);
    }
  }

  /** Every endpoint is queried with the barcode. */
  lemma UrlsCarryBarcode(barcode: string)
    ensures forall i :: 0 <= i < 4 ==> IsSubstring(barcode, Urls(barcode)[i])
  {
    var u := Urls(barcode);
    SubstringOfConcat("https://world.openfoodfacts.org/api/v2/product/", barcode, "");
    assert u[0] == "https://world.openfoodfacts.org/api/v2/product/" + barcode + "";
    SubstringOfConcat("https://world.openfoodfacts.org/api/v0/product/", barcode, ".json");
    SubstringOfConcat("https://world.openfoodfacts.org/cgi/search.pl?search_terms=", barcode,
      "&search_simple=1&action=process&json=1");
    SubstringOfConcat("https://in.openfoodfacts.org/api/v0/product/", barcode, ".json");
  }

  /** The four endpoints are four different URLs, whatever the barcode: a
      response depends on the endpoint asked. */
  lemma UrlsDistinct(barcode: string)
    ensures forall i, j :: 0 <= i < j < 4 ==> Urls(barcode)[i] != Urls(barcode)[j]
  {
    var u := Urls(barcode);
    DiffersAt(u[0], u[1], 37);
    DiffersAt(u[0], u[2], 32);
    DiffersAt(u[1], u[2], 32);
    DiffersAt(u[0], u[3], 8);
    DiffersAt(u[1], u[3], 8);
    DiffersAt(u[2], u[3], 8);
  }

  /** Two strings that differ at one position are different. */
  lemma DiffersAt(a: string, b: string, k: nat)
    requires k < |a| && k < |b| && a[k] != b[k]
    ensures a != b
  {
  }

  /** The dict literal handed to `info.update`, evaluated as Python does:
      every `get` needs a dict, so a product that is not a dict, or a present
      `nutriments` entry that is not a dict, makes the whole literal raise
      (AttributeError) before anything is updated. On a dict product the six
      top-level `get` calls cannot raise, so only those two checks decide.
      (`p.get("nutriments", {})` is evaluated once here; app1.py evaluates
      the same pure expression four times.) */
  function Fill(p: Json): (r: Option<map<string, Json>>)
    ensures r.Some? <==> p.JObject? && NutrimentsUsable(p.fields)
    ensures r.Some? ==> MappedKeys(r.value)
  {
    match p
    case JObject(m) =>
      var nutriments := Field(m, "nutriments", JObject(map[]));
      if !nutriments.JObject? then None
      else
        var n := nutriments.fields;
        Some(map[
          "found" := JBool(true),
          "name" := Field(m, "product_name", JString("Unknown")),
          "brand" := Field(m, "brands", JString("Unknown")),
          "category" := Field(m, "categories", JString("N/A")),
          "origin" := Field(m, "countries", JString("N/A")),
          "ingredients" := Field(m, "ingredients_text", JString("N/A")),
          "image" := Field(m, "image_url", JNull),
          "nutrition" := JObject(map[
            "energy" := Field(n, "energy-kcal_100g", JString("N/A")),
            "fat" := Field(n, "fat_100g", JString("N/A")),
            "carbs" := Field(n, "carbohydrates_100g", JString("N/A")),
            "protein" := Field(n, "proteins_100g", JString("N/A"))])])
    case _ => None
  }

  /** `"product" in data and data.get("status") == 1`; None when it raises. */
  function ProductCondition(data: Json): (r: Option<bool>)
    ensures data.JObject? ==> r == Some(ProductCase(data.fields))
    ensures r == Some(true) ==> data.JObject?
  {
    var has :- Contains(data, "product");
    if !has then Some(false)
    else
      var status :- DictGet(data, "status", JNull);
      Some(EqualsOne(status))
  }

  /** `"products" in data and len(data["products"]) > 0`; None when it raises. */
  function ProductsCondition(data: Json): (r: Option<bool>)
    ensures data.JObject? && "products" !in data.fields ==> r == Some(false)
    ensures data.JObject? && "products" in data.fields && data.fields["products"].JArray? ==>
      r == Some(|data.fields["products"].items| > 0)
    ensures r == Some(true) ==> data.JObject? && "products" in data.fields
  {
    var has :- Contains(data, "products");
    if !has then Some(false)
    else
      var products :- GetItem(data, "products");
      var n :- Len(products);
      Some(n > 0)
  }

  /** Fill from the selected candidate, if selecting it did not raise. Once a
      candidate is selected the pass never reaches `continue`: it fills or raises. */
  function FromCandidate(p: Option<Json>): (r: Attempt)
    ensures r != NoMatch
    ensures r.Matched? <==> p.Some? && p.value.JObject? && NutrimentsUsable(p.value.fields)
    ensures r.Matched? ==> MappedFrom(r.update, p.value.fields)
  {
    match p
    case None => Raised
    case Some(p) =>
      FillFollowsMapping(p);
      match Fill(p)
      case None => Raised
      case Some(update) => Matched(update)
  }

  /** The body of the `try` block for one response. */
  function Evaluate(response: Response): (r: Attempt)
    ensures response.Fail? ==> r == Raised
    ensures r.Matched? ==> response.Body? && response.data.JObject? && MappedKeys(r.update)
  {
    match response
    case Fail => Raised
    case Body(data) =>
      match ProductCondition(data)
      case None => Raised
      case Some(true) => FromCandidate(GetItem(data, "product"))
      case Some(false) =>
        match ProductsCondition(data)
        case None => Raised
        case Some(false) => NoMatch
        case Some(true) =>
          match GetItem(data, "products")
          case None => Raised
          case Some(products) => FromCandidate(IndexZero(products))
  }

  /** The response-shape rule, stated on its own: an object body that has a
      `product` entry and a status equal to 1 selects that product; otherwise
      a non-empty `products` list selects its first element; the selection
      must be a dict. */
  function ProductRecord(data: Json): Option<map<string, Json>> {
    match data
    case JObject(m) =>
      if ProductCase(m) then
        (if m["product"].JObject? then Some(m["product"].fields) else None)
      else if "products" in m && m["products"].JArray? && |m["products"].items| > 0 then
        (if m["products"].items[0].JObject? then Some(m["products"].items[0].fields) else None)
      else None
    case _ => None
  }

  /** The product's `nutriments` entry is absent or a dict. */
  predicate NutrimentsUsable(p: map<string, Json>) {
    "nutriments" !in p || p["nutriments"].JObject?
  }

  /** `m.get(key, default)` on a dict. */
  function Field(m: map<string, Json>, key: string, default: Json): (r: Json)
    ensures key in m ==> r == m[key]
    ensures key !in m ==> r == default
  {
    if key in m then m[key] else default
  }

  /** The field mapping: result key, product key, default. */
  const ProductFields: seq<(string, string, Json)> := [
    ("name", "product_name", JString("Unknown")),
    ("brand", "brands", JString("Unknown")),
    ("category", "categories", JString("N/A")),
    ("origin", "countries", JString("N/A")),
    ("ingredients", "ingredients_text", JString("N/A")),
    ("image", "image_url", JNull)]

  /** The nutrition mapping: result key, key in `nutriments`; default "N/A". */
  const NutritionFields: seq<(string, string)> := [
    ("energy", "energy-kcal_100g"),
    ("fat", "fat_100g"),
    ("carbs", "carbohydrates_100g"),
    ("protein", "proteins_100g")]

  /** The keys `info.update` sets on a match. */
  ghost predicate MappedKeys(update: map<string, Json>) {
    && update.Keys == {"found", "name", "brand", "category", "origin", "ingredients", "image", "nutrition"}
    && update["found"] == JBool(true)
    && update["nutrition"].JObject?
    && update["nutrition"].fields.Keys == {"energy", "fat", "carbs", "protein"}
  }

  /** Each product field is the product's value when its key is present (even
      null) and the default only when it is absent. */
  ghost predicate MappedFields(update: map<string, Json>, p: map<string, Json>) {
    forall i :: 0 <= i < |ProductFields| ==>
      ProductFields[i].0 in update && update[ProductFields[i].0] == Field(p, ProductFields[i].1, ProductFields[i].2)
  }

  /** The product's nutriments dict, or `{}` when absent. */
  function Nutriments(p: map<string, Json>): map<string, Json> {
    if "nutriments" in p && p["nutriments"].JObject? then p["nutriments"].fields else map[]
  }

  /** Each nutrition value is taken from the nutriments dict, "N/A" when absent. */
  ghost predicate MappedNutrition(update: map<string, Json>, p: map<string, Json>) {
    && "nutrition" in update && update["nutrition"].JObject?
    && forall i :: 0 <= i < |NutritionFields| ==>
         NutritionFields[i].0 in update["nutrition"].fields &&
         update["nutrition"].fields[NutritionFields[i].0] == Field(Nutriments(p), NutritionFields[i].1, JString("N/A"))
  }

  /** `update` is what the mapping tables make of product `p`. */
  ghost predicate MappedFrom(update: map<string, Json>, p: map<string, Json>) {
    MappedKeys(update) && MappedFields(update, p) && MappedNutrition(update, p)
  }

  /** When Fill succeeds, every field follows the mapping tables. */
  lemma FillFollowsMapping(p: Json)
    ensures Fill(p).Some? ==> MappedFrom(Fill(p).value, p.fields)
  {
    if Fill(p).Some? {
      var m, u := p.fields, Fill(p).value;
      var n := Nutriments(m);
      assert Field(m, "nutriments", JObject(map[])) == JObject(n);
      assert u["nutrition"] == JObject(map[
        "energy" := Field(n, "energy-kcal_100g", JString("N/A")),
        "fat" := Field(n, "fat_100g", JString("N/A")),
        "carbs" := Field(n, "carbohydrates_100g", JString("N/A")),
        "protein" := Field(n, "proteins_100g", JString("N/A"))]);
    }
  }


  /** A body that is not a dict never matches: Python either takes the
      `continue` or raises (TypeError on `in`, AttributeError on `get`,
      TypeError on subscripting a list or str with a str). */
  lemma NonObjectNeverMatches(data: Json)
    requires !data.JObject?
    ensures Evaluate(Body(data)) == NoMatch || Evaluate(Body(data)) == Raised
  {
  }

  /** `"product" in data and data.get("status") == 1` on a dict. */
  predicate ProductCase(m: map<string, Json>) {
    "product" in m && "status" in m && EqualsOne(m["status"])
  }

  /** The `if` branch: the product entry is filled from, or raises. */
  lemma ProductBranch(m: map<string, Json>)
    requires ProductCase(m)
    ensures Evaluate(Body(JObject(m))).Matched? <==>
      ProductRecord(JObject(m)).Some? && NutrimentsUsable(ProductRecord(JObject(m)).value)
    ensures Evaluate(Body(JObject(m))).Matched? ==>
      MappedFrom(Evaluate(Body(JObject(m))).update, ProductRecord(JObject(m)).value)
  {
  }

  /** The `elif` branch: only a non-empty list whose first element is a dict
      gets past the subscripts and `get` calls. */
  lemma ProductsBranch(m: map<string, Json>)
    requires !ProductCase(m)
    ensures Evaluate(Body(JObject(m))).Matched? <==>
      ProductRecord(JObject(m)).Some? && NutrimentsUsable(ProductRecord(JObject(m)).value)
    ensures Evaluate(Body(JObject(m))).Matched? ==>
      MappedFrom(Evaluate(Body(JObject(m))).update, ProductRecord(JObject(m)).value)
  {
    if "products" in m {
      var products := m["products"];
      if products.JArray? && |products.items| > 0 {
      } else if products.JString? && |products.s| > 0 {
      }
    }
  }

  /** The Python evaluation of a response agrees with the shape rule: it
      matches exactly when the rule selects a product whose nutriments are
      absent or a dict, and then fills from that product. */
  lemma EvaluateFollowsShapeRule(response: Response)
    ensures Evaluate(response).Matched? <==>
      response.Body? && ProductRecord(response.data).Some? && NutrimentsUsable(ProductRecord(response.data).value)
    ensures Evaluate(response).Matched? ==>
      MappedFrom(Evaluate(response).update, ProductRecord(response.data).value)
  {
    if response.Body? {
      if response.data.JObject? {
        if ProductCase(response.data.fields) {
          ProductBranch(response.data.fields);
        } else {
          ProductsBranch(response.data.fields);
        }
      } else {
        NonObjectNeverMatches(response.data);
      }
    }
  }

  /** The response to `urls[i]` selects a product dict with usable nutriments. */
  predicate Selects(response: Response) {
    response.Body? && ProductRecord(response.data).Some? && NutrimentsUsable(ProductRecord(response.data).value)
  }

  /** The outcome of fetching each URL, in order. */
  function Attempts(urls: seq<string>, fetch: string -> Response): (r: seq<Attempt>)
    ensures |r| == |urls|
  {
    seq(|urls|, i requires 0 <= i < |urls| => Evaluate(fetch(urls[i])))
  }

  /** The attempt at `urls[i]` matches exactly when the response to it selects
      a usable product. */
  lemma AttemptsFollowShapeRule(urls: seq<string>, fetch: string -> Response)
    ensures forall i :: 0 <= i < |urls| ==> (Attempts(urls, fetch)[i].Matched? <==> Selects(fetch(urls[i])))
  {
    forall i | 0 <= i < |urls|
      ensures Attempts(urls, fetch)[i].Matched? <==> Selects(fetch(urls[i]))
    {
      EvaluateFollowsShapeRule(fetch(urls[i]));
    }
  }

  /** The position of the first matching attempt. */
  function FirstMatch(attempts: seq<Attempt>): (r: Option<nat>)
    ensures r.Some? ==> r.value < |attempts| && attempts[r.value].Matched?
    ensures r.Some? ==> forall j :: 0 <= j < r.value ==> !attempts[j].Matched?
    ensures r.None? ==> forall j :: 0 <= j < |attempts| ==> !attempts[j].Matched?
  {
    if attempts == [] then None
    else if attempts[0].Matched? then Some(0)
    else
      match FirstMatch(attempts[1..])
      case None => None
      case Some(k) => Some(k + 1)
  }

  /** A matching attempt preceded only by non-matching ones is the first match. */
  lemma {:induction false} FirstMatchAt(attempts: seq<Attempt>, k: nat)
    requires k < |attempts| && attempts[k].Matched?
    requires forall j :: 0 <= j < k ==> !attempts[j].Matched?
    ensures FirstMatch(attempts) == Some(k)
  {
    if k > 0 {
      FirstMatchAt(attempts[1..], k - 1);
    }
  }

  /** With no matching attempt there is no first match. */
  lemma FirstMatchNone(attempts: seq<Attempt>)
    requires forall j :: 0 <= j < |attempts| ==> !attempts[j].Matched?
    ensures FirstMatch(attempts) == None
  {
  }

  /** The initial `info` dict, returned unchanged when nothing matches. */
  function NotFound(barcode: string): (r: map<string, Json>)
    ensures r.Keys == {"barcode", "found"}
    ensures r["barcode"] == JString(barcode) && r["found"] == JBool(false)
  {
    map["barcode" := JString(barcode), "found" := JBool(false)]
  }

  /** The dict `get_product_info` returns for the given endpoint outcomes. */
  function LookupResult(barcode: string, attempts: seq<Attempt>): (r: map<string, Json>)
    ensures FirstMatch(attempts).None? ==> r.Keys == {"barcode", "found"} && r["found"] == JBool(false)
    ensures "barcode" in r && "found" in r
    ensures FirstMatch(attempts).Some? ==>
      var update := attempts[FirstMatch(attempts).value].update;
      && r.Keys == {"barcode", "found"} + update.Keys
      && (forall key :: key in update ==> r[key] == update[key])
      && ("barcode" !in update ==> r["barcode"] == JString(barcode))
  {
    match FirstMatch(attempts)
    case None => NotFound(barcode)
    case Some(k) => NotFound(barcode) + attempts[k].update
  }

  /** `info` is the found result for `barcode` filled from product `p`. */
  ghost predicate FoundInfo(info: map<string, Json>, barcode: string, p: map<string, Json>) {
    && info.Keys == {"barcode", "found", "name", "brand", "category", "origin", "ingredients", "image", "nutrition"}
    && info["barcode"] == JString(barcode)
    && info["found"] == JBool(true)
    && MappedFields(info, p)
    && MappedNutrition(info, p)
    && info["nutrition"].fields.Keys == {"energy", "fat", "carbs", "protein"}
  }

  /** `info.update` with a mapped dict keeps the barcode and takes the rest. */
  lemma UpdateNotFound(barcode: string, update: map<string, Json>, p: map<string, Json>)
    requires MappedFrom(update, p)
    ensures FoundInfo(NotFound(barcode) + update, barcode, p)
  {
    var info := NotFound(barcode) + update;
    assert "barcode" !in update;
    forall i | 0 <= i < |ProductFields| ensures ProductFields[i].0 in info && info[ProductFields[i].0] == update[ProductFields[i].0] {
      assert ProductFields[i].0 in update;
    }
  }

  /** The outcome of a lookup. With no match the result is exactly
      `{"barcode": barcode, "found": False}`. With a first match at endpoint
      `k`, that endpoint returned a body whose shape selects a product, and the
      result keeps the barcode and fills every other entry from that product
      by the mapping tables. */
  lemma LookupOutcome(barcode: string, urls: seq<string>, fetch: string -> Response)
    ensures FirstMatch(Attempts(urls, fetch)).None? ==>
      LookupResult(barcode, Attempts(urls, fetch)) == map["barcode" := JString(barcode), "found" := JBool(false)]
    ensures FirstMatch(Attempts(urls, fetch)).Some? ==>
      var response := fetch(urls[FirstMatch(Attempts(urls, fetch)).value]);
      && response.Body?
      && ProductRecord(response.data).Some?
      && FoundInfo(LookupResult(barcode, Attempts(urls, fetch)), barcode, ProductRecord(response.data).value)
  {
    var attempts := Attempts(urls, fetch);
    match FirstMatch(attempts)
    case None =>
    case Some(k) =>
      var response := fetch(urls[k]);
      assert attempts[k] == Evaluate(response);
      EvaluateFollowsShapeRule(response);
      UpdateNotFound(barcode, attempts[k].update, ProductRecord(response.data).value);
  }

  /** The lookup is found exactly when some endpoint returns a body whose
      shape selects a product dict with usable nutriments. */
  lemma FoundIffSomeEndpointMatches(barcode: string, urls: seq<string>, fetch: string -> Response)
    ensures LookupResult(barcode, Attempts(urls, fetch))["found"] == JBool(true) <==>
      exists k :: 0 <= k < |urls| && Selects(fetch(urls[k]))
  {
    LookupOutcome(barcode, urls, fetch);
    AttemptsFollowShapeRule(urls, fetch);
  }

  /** Endpoints after the first match are never consulted: changing what
      they return does not change the result. */
  lemma LaterEndpointsIgnored(barcode: string, urls: seq<string>, fetch1: string -> Response, fetch2: string -> Response, k: nat)
    requires FirstMatch(Attempts(urls, fetch1)) == Some(k)
    requires forall j :: 0 <= j <= k ==> fetch1(urls[j]) == fetch2(urls[j])
    ensures LookupResult(barcode, Attempts(urls, fetch1)) == LookupResult(barcode, Attempts(urls, fetch2))
  {
    var a1, a2 := Attempts(urls, fetch1), Attempts(urls, fetch2);
    assert forall j :: 0 <= j <= k ==> a1[j] == a2[j];
    FirstMatchAt(a2, k);
  }

  lemma PrefixStep(urls: seq<string>, i: nat)
    requires i < |urls|
    ensures urls[..i] + [urls[i]] == urls[..i + 1]
  {
  }

  /** The outcome of `step` on each URL, in order. */
  function Outcomes(urls: seq<string>, step: string -> Attempt): (r: seq<Attempt>)
    ensures |r| == |urls|
  {
    seq(|urls|, i requires 0 <= i < |urls| => step(urls[i]))
  }

  /** Requesting a URL and evaluating the response, URL by URL, gives the attempts. */
  lemma OutcomesOfFetch(urls: seq<string>, fetch: string -> Response)
    ensures Outcomes(urls, u => Evaluate(fetch(u))) == Attempts(urls, fetch)
  {
  }

  /** The loop of `get_product_info` over the endpoint list `urls`, where
      `step` is the `try` block for one URL (request and evaluation): a failed
      or non-matching attempt leaves `info` as it was, the first match updates
      it and returns. `requested` lists the URLs tried, in order. */
  method TryEndpoints(barcode: string, urls: seq<string>, step: string -> Attempt)
    returns (info: map<string, Json>, ghost requested: seq<string>)
    ensures info == LookupResult(barcode, Outcomes(urls, step))
    ensures FirstMatch(Outcomes(urls, step)).Some? ==>
      requested == urls[..FirstMatch(Outcomes(urls, step)).value + 1]
    ensures FirstMatch(Outcomes(urls, step)).None? ==> requested == urls
  {
    info := map["barcode" := JString(barcode), "found" := JBool(false)];
    ghost var attempts := Outcomes(urls, step);
    requested := [];
    for i := 0 to |urls|
      invariant info == NotFound(barcode)
      invariant requested == urls[..i]
      invariant forall j :: 0 <= j < i ==> !attempts[j].Matched?
    {
      PrefixStep(urls, i);
      requested := requested + [urls[i]];
      var attempt := step(urls[i]);
      assert attempt == attempts[i];
      if attempt.Matched? {
        FirstMatchAt(attempts, i);
        info := info + attempt.update;
        return;
      }
    }
    assert urls[..|urls|] == urls;
    FirstMatchNone(attempts);
  }

  /** `get_product_info`: the loop over the four endpoints, in their fixed
      order, each attempt being a request and the evaluation of its response. */
  method GetProductInfo(barcode: string, fetch: string -> Response)
    returns (info: map<string, Json>, ghost requested: seq<string>)
    ensures info == LookupResult(barcode, Attempts(Urls(barcode), fetch))
    ensures FirstMatch(Attempts(Urls(barcode), fetch)).Some? ==>
      requested == Urls(barcode)[..FirstMatch(Attempts(Urls(barcode), fetch)).value + 1]
    ensures FirstMatch(Attempts(Urls(barcode), fetch)).None? ==> requested == Urls(barcode)
  {
    OutcomesOfFetch(Urls(barcode), fetch);
    info, requested := TryEndpoints(barcode, Urls(barcode), u => Evaluate(fetch(u)));
  }
}
