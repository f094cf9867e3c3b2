/** Concrete responses: what one pass of the `get_product_info` loop makes of
    particular bodies. */
module LookupExamples {
  import opened Options
  import opened JsonValue
  import opened ProductLookup

  /** `{"status": 1, "product": {"product_name": "X", "brands": "Y",
      "nutriments": {"energy-kcal_100g": 100}}}` is filled from, with the
      defaults for what the product lacks. */
  lemma ProductBodyFilled()
    ensures var r := Evaluate(Body(JObject(map[
      "status" := JInt(1),
      "product" := JObject(map[
        "product_name" := JString("X"),
        "brands" := JString("Y"),
        "nutriments" := JObject(map["energy-kcal_100g" := JInt(100)])])])));
      && r.Matched?
      && "name" in r.update && r.update["name"] == JString("X")
      && "nutrition" in r.update && r.update["nutrition"].JObject?
      && "energy" in r.update["nutrition"].fields && r.update["nutrition"].fields["energy"] == JInt(100)
      && "fat" in r.update["nutrition"].fields && r.update["nutrition"].fields["fat"] == JString("N/A")
  {
    var n := map["energy-kcal_100g" := JInt(100)];
    var p := map["product_name" := JString("X"), "brands" := JString("Y"), "nutriments" := JObject(n)];
    var data := map["status" := JInt(1), "product" := JObject(p)];
    assert ProductCase(data);
    var r := Evaluate(Body(JObject(data)));
    assert r == FromCandidate(Some(JObject(p)));
    assert r.Matched? && MappedFrom(r.update, p);
    assert Nutriments(p) == n;
    assert ProductFields[0].0 == "name" && ProductFields[0].1 == "product_name";
    assert NutritionFields[0] == ("energy", "energy-kcal_100g") && NutritionFields[1] == ("fat", "fat_100g");
  }

  /** `{"products": [{"product_name": "Z"}]}`, a search answer, selects its
      first listed product. */
  lemma SearchBodyFilled()
    ensures var r := Evaluate(Body(JObject(map["products" := JArray([JObject(map["product_name" := JString("Z")])])])));
      && r.Matched?
      && "name" in r.update && r.update["name"] == JString("Z")
      && "brand" in r.update && r.update["brand"] == JString("Unknown")
  {
    var p := map["product_name" := JString("Z")];
    var data := map["products" := JArray([JObject(p)])];
    assert !ProductCase(data);
    assert ProductCondition(JObject(data)) == Some(false);
    assert ProductsCondition(JObject(data)) == Some(true);
    assert GetItem(JObject(data), "products") == Some(JArray([JObject(p)]));
    assert IndexZero(JArray([JObject(p)])) == Some(JObject(p));
    var r := Evaluate(Body(JObject(data)));
    assert r == FromCandidate(Some(JObject(p)));
    assert r.Matched? && MappedFrom(r.update, p);
    assert ProductFields[0].0 == "name" && ProductFields[0].1 == "product_name";
    assert ProductFields[1] == ("brand", "brands", JString("Unknown"));
  }

  /** `{"status": 1.0, "product": {"brands": null}}`: a float status 1.0
      counts as 1, and a present null field stays null instead of taking its
      default. */
  lemma FloatStatusAndNullField()
    ensures var r := Evaluate(Body(JObject(map["status" := JReal(1.0), "product" := JObject(map["brands" := JNull])])));
      && r.Matched?
      && "brand" in r.update && r.update["brand"] == JNull
      && "name" in r.update && r.update["name"] == JString("Unknown")
  {
    var p := map["brands" := JNull];
    var data := map["status" := JReal(1.0), "product" := JObject(p)];
    assert ProductCase(data);
    var r := Evaluate(Body(JObject(data)));
    assert r == FromCandidate(Some(JObject(p)));
    assert r.Matched? && MappedFrom(r.update, p);
    assert ProductFields[0] == ("name", "product_name", JString("Unknown"));
    assert ProductFields[1].0 == "brand" && ProductFields[1].1 == "brands";
  }

  /** A product whose nutriments entry is a list makes the dict literal raise;
      a status of "1" (a str) is not 1, so the product is skipped. */
  lemma RejectedProducts()
    ensures Evaluate(Body(JObject(map[
      "status" := JInt(1),
      "product" := JObject(map["nutriments" := JArray([])])]))) == Raised
    ensures Evaluate(Body(JObject(map["status" := JString("1"), "product" := JObject(map[])]))) == NoMatch
  {
  }

  /** Bodies that are not dicts: a list holding "product" raises on `get`, an
      empty search list is skipped, a str containing "product" raises. */
  lemma RejectedBodies()
    ensures Evaluate(Body(JArray([JString("product")]))) == Raised
    ensures Evaluate(Body(JObject(map["products" := JArray([])]))) == NoMatch
    ensures Evaluate(Body(JString("product"))) == Raised
  {
  }
}
