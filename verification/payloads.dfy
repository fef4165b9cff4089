/**
 * The two export payloads of `MixamoDownloader`: the T-pose payload built from the
 * character, and the animation payload built from the product description the
 * server returns for an animation on that character.
 *
 * Payloads are the JSON values handed to `json.dumps`; the serialisation itself is
 * not modelled. Every exception `build_animation_payload` catches is a `None`
 * payload here.
 */
module Payloads {
  import opened Wrappers
  import opened JsonValues
  import opened Text

  /** The reply to the product request: it raised, or it came back with a status and a body (`None`: not JSON). */
  datatype ProductReply = ProductRaised | ProductHttp(code: int, body: Option<Json>)

  /**
   * What `build_animation_payload` leaves behind: the new `product_name`, when it got
   * as far as setting it, and the payload, when it succeeded.
   */
  datatype Built = Built(productName: Option<Json>, payload: Option<Json>)

  /** The export preferences of the T-pose. */
  const TPosePreferences: Json := JObj(map["format" := JStr("fbx7_2019"), "mesh" := JStr("t-pose")])

  /** The export preferences of every animation. */
  const AnimationPreferences: Json :=
    JObj(map["format" := JStr("fbx7_2019"), "skin" := JBool(false), "fps" := JStr("24"), "reducekf" := JStr("0")])

  /** The trim used when the hash has none. */
  const DefaultTrim: Json := JArr([JInt(0), JInt(100)])

  /** `build_tpose_payload`: the character itself, as a "Character" product, with no motion hash. */
  function TPosePayload(characterId: Json, characterName: Json): (p: Json)
    ensures p.JObj? && p.fields.Keys == {"character_id", "product_name", "type", "preferences", "gms_hash"}
    ensures p.fields["character_id"] == characterId && p.fields["product_name"] == characterName
    ensures p.fields["type"] == JStr("Character") && p.fields["gms_hash"] == JNull
  {
    JObj(map[
      "character_id" := characterId,
      "product_name" := characterName,
      "type" := JStr("Character"),
      "preferences" := TPosePreferences,
      "gms_hash" := JNull])
  }

  /** Python's `int(x)` for a JSON value: integers, booleans and numeric strings convert; anything else raises. */
  function IntOf(j: Json): Option<int>
  {
    match j
    case JInt(i) => Some(i)
    case JBool(b) => Some(if b then 1 else 0)
    case JStr(s) => ParseInt(s)
    case _ => None
  }

  /** Python's `x[k]` for a list or a string, negative `k` counting from the end; anything else raises. */
  function Index(j: Json, k: int): Option<Json>
  {
    match j
    case JArr(items) =>
      if -|items| <= k < |items| then Some(items[if k < 0 then |items| + k else k]) else None
    case JStr(s) =>
      if -|s| <= k < |s| then Some(JStr([s[if k < 0 then |s| + k else k]])) else None
    case _ => None
  }

  /** `int(x[k])`. */
  function IntAt(j: Json, k: int): Option<int>
  {
    var e := Index(j, k);
    if e.None? then None else IntOf(e.value)
  }

  /**
   * Python's `for p in x` over the `params` value: a list gives its items, a string its
   * characters; `None`, numbers and booleans raise. A JSON object is not accepted here
   * (Python would iterate over its keys).
   */
  function Elements(j: Json): Option<seq<Json>>
  {
    match j
    case JArr(items) => Some(items)
    case JStr(s) => Some(seq(|s|, i requires 0 <= i < |s| => JStr([s[i]])))
    case _ => None
  }

  /** `[int(p[-1]) for p in params]`; `None` when any element raises. */
  function LastValues(params: seq<Json>): (r: Option<seq<int>>)
    ensures r.Some? <==> forall i :: 0 <= i < |params| ==> IntAt(params[i], -1).Some?
    ensures r.Some? ==> |r.value| == |params| && forall i :: 0 <= i < |params| ==> r.value[i] == IntAt(params[i], -1).value
  {
    if params == [] then Some([])
    else
      var v := IntAt(params[|params| - 1], -1);
      var init := LastValues(params[..|params| - 1]);
      if v.None? || init.None? then None else Some(init.value + [v.value])
  }

  /** `str(v)` of every value. */
  function Decimals(values: seq<int>): seq<string>
  {
    seq(|values|, i requires 0 <= i < |values| => Decimal(values[i]))
  }

  /** The `params` string Mixamo expects: the values joined by commas. */
  function ParamsString(values: seq<int>): string
  {
    Join(Decimals(values), ",")
  }

  /** The name used when the product has no description: `animation_<id>`. */
  function FallbackName(animId: Scalar): string
  {
    "animation_" + PyStr(animId)
  }

  /**
   * The motion hash rewritten in place: `params` becomes the comma-joined last value of
   * every param, `overdrive` 0, and `trim` the two integers of the original trim.
   */
  function RewriteHash(gms: Record): (r: Option<Record>)
  {
    var params := Elements(GetOr(gms, "params", JArr([])));
    if params.None? then None
    else
      var values := LastValues(params.value);
      var trim := GetOr(gms, "trim", DefaultTrim);
      var start := IntAt(trim, 0);
      var end := IntAt(trim, 1);
      if values.None? || start.None? || end.None? then None
      else Some(gms["params" := JStr(ParamsString(values.value))]["overdrive" := JInt(0)]
                   ["trim" := JArr([JInt(start.value), JInt(end.value)])])
  }

  /** `build_animation_payload(character_id, anim_id)` given the server's reply about the product. */
  function AnimationPayload(characterId: Json, animId: Scalar, reply: ProductReply): (b: Built)
    ensures b.payload.Some? ==> b.productName.Some?
    ensures b.payload.Some? ==> b.payload.value.JObj? && b.payload.value.fields.Keys == {"character_id", "product_name", "type", "preferences", "gms_hash"}
    ensures b.payload.Some? ==> b.payload.value.fields["product_name"] == b.productName.value
    ensures b.payload.Some? ==> b.payload.value.fields["character_id"] == characterId
    ensures b.payload.Some? ==> b.payload.value.fields["preferences"] == AnimationPreferences
  {
    if !reply.ProductHttp? || reply.code != 200 || reply.body.None? || !reply.body.value.JObj? then Built(None, None)
    else
      var product := reply.body.value.fields;
      var name := GetOr(product, "description", JStr(FallbackName(animId)));
      var kind := GetOr(product, "type", JStr("Motion"));
      var details := GetOr(product, "details", JObj(map[]));
      if !details.JObj? then Built(Some(name), None)
      else
        var gms := Get(details.fields, "gms_hash");
        if !gms.Truthy() || !gms.JObj? then Built(Some(name), None)
        else
          var hash := RewriteHash(gms.fields);
          if hash.None? then Built(Some(name), None)
          else Built(Some(name), Some(ExportPayload(characterId, name, kind, hash.value)))
  }

  /** The exported payload around a rewritten hash. */
  function ExportPayload(characterId: Json, name: Json, kind: Json, hash: Record): (p: Json)
    ensures p.JObj? && p.fields.Keys == {"character_id", "product_name", "type", "preferences", "gms_hash"}
    ensures p.fields["character_id"] == characterId && p.fields["product_name"] == name
    ensures p.fields["preferences"] == AnimationPreferences
    ensures HashOf(p) == hash
  {
    JObj(map[
      "character_id" := characterId,
      "product_name" := name,
      "type" := kind,
      "preferences" := AnimationPreferences,
      "gms_hash" := JArr([JObj(hash)])])
  }

  /** The motion hash inside a payload. */
  function HashOf(payload: Json): Record
  {
    if payload.JObj? && "gms_hash" in payload.fields && payload.fields["gms_hash"].JArr?
       && |payload.fields["gms_hash"].items| == 1 && payload.fields["gms_hash"].items[0].JObj?
    then payload.fields["gms_hash"].items[0].fields
    else map[]
  }

  // ---------------------------------------------------------------------------
  // Properties of the animation payload

  /** Without a truthy `details.gms_hash` there is no payload. */
  lemma NoPayloadWithoutHash(characterId: Json, animId: Scalar, product: Record)
    requires "details" in product && product["details"].JObj? ==> !Get(product["details"].fields, "gms_hash").Truthy()
    ensures AnimationPayload(characterId, animId, ProductHttp(200, Some(JObj(product)))).payload.None?
  {
  }

  /** Any reply other than a 200 with a JSON object yields no payload and leaves `product_name` alone. */
  lemma NoPayloadWithoutProduct(characterId: Json, animId: Scalar, reply: ProductReply)
    requires !(reply.ProductHttp? && reply.code == 200 && reply.body.Some? && reply.body.value.JObj?)
    ensures AnimationPayload(characterId, animId, reply) == Built(None, None)
  {
  }

  /**
   * The motion hash of a product reply can be rewritten: `details` is an object whose
   * `gms_hash` is a truthy object, and every `int()` the rewrite applies succeeds.
   */
  predicate HasUsableHash(product: Record)
  {
    && "details" in product && product["details"].JObj?
    && var gms := Get(product["details"].fields, "gms_hash");
       gms.Truthy() && gms.JObj? && RewriteHash(gms.fields).Some?
  }

  /**
   * A 200 reply carrying a JSON object yields a payload exactly when its hash can be
   * rewritten, and that payload is the export payload with the product's description
   * (or `animation_<id>`), its `type` (`"Motion"` when missing) and the rewritten hash.
   */
  lemma PayloadBuilt(characterId: Json, animId: Scalar, product: Record)
    ensures var b := AnimationPayload(characterId, animId, ProductHttp(200, Some(JObj(product))));
            b.payload.Some? <==> HasUsableHash(product)
    ensures HasUsableHash(product) ==>
              AnimationPayload(characterId, animId, ProductHttp(200, Some(JObj(product)))) ==
              Built(Some(GetOr(product, "description", JStr(FallbackName(animId)))),
                    Some(ExportPayload(characterId, GetOr(product, "description", JStr(FallbackName(animId))),
                                       GetOr(product, "type", JStr("Motion")),
                                       RewriteHash(product["details"].fields["gms_hash"].fields).value)))
  {
  }

  /** The file name comes from the description, or is `animation_<id>` when the product has no description. */
  lemma ProductNameIsDescription(characterId: Json, animId: Scalar, product: Record)
    ensures var b := AnimationPayload(characterId, animId, ProductHttp(200, Some(JObj(product))));
            b.productName == Some(if "description" in product then product["description"] else JStr("animation_" + PyStr(animId)))
  {
  }

  /**
   * A successful payload carries the product's hash, rewritten as `RewriteHashFacts` states.
   */
  lemma PayloadHash(characterId: Json, animId: Scalar, product: Record)
    requires AnimationPayload(characterId, animId, ProductHttp(200, Some(JObj(product)))).payload.Some?
    ensures "details" in product && product["details"].JObj? && "gms_hash" in product["details"].fields
    ensures var gms := product["details"].fields["gms_hash"];
            && gms.JObj?
            && RewriteHash(gms.fields).Some?
            && HashOf(AnimationPayload(characterId, animId, ProductHttp(200, Some(JObj(product)))).payload.value) == RewriteHash(gms.fields).value
  {
  }

  /**
   * The rewritten hash: `params` is a string that splits at its commas into the decimal
   * renderings of `int(p[-1])` for every param, in order (empty without params);
   * `overdrive` is 0; `trim` the integers of the original trim (`[0, 100]` without one);
   * and every other field of the hash is unchanged.
   */
  lemma RewriteHashFacts(gms: Record)
    requires RewriteHash(gms).Some?
    ensures var h := RewriteHash(gms).value;
            var params := Elements(GetOr(gms, "params", JArr([]))).value;
            var trim := GetOr(gms, "trim", DefaultTrim);
            && "params" in h && h["params"].JStr?
            && (|params| >= 1 ==> Split(h["params"].s, ',') == seq(|params|, i requires 0 <= i < |params| => Decimal(IntAt(params[i], -1).value)))
            && (|params| == 0 ==> h["params"].s == "")
            && "overdrive" in h && h["overdrive"] == JInt(0)
            && "trim" in h && h["trim"] == JArr([JInt(IntAt(trim, 0).value), JInt(IntAt(trim, 1).value)])
            && forall k :: k in gms && k !in {"params", "overdrive", "trim"} ==> k in h && h[k] == gms[k]
  {
    var params := Elements(GetOr(gms, "params", JArr([]))).value;
    var values := LastValues(params).value;
    var trim := GetOr(gms, "trim", DefaultTrim);
    var p := JStr(ParamsString(values));
    var t := JArr([JInt(IntAt(trim, 0).value), JInt(IntAt(trim, 1).value)]);
    assert RewriteHash(gms).value == gms["params" := p]["overdrive" := JInt(0)]["trim" := t];
    UpdatesKeepOthers(gms, "params", p, "overdrive", JInt(0), "trim", t);
    if |params| >= 1 {
      ParamsSplit(params);
    }
  }

  /** The `params` string splits back into the rendered values, one per param. */
  lemma ParamsSplit(params: seq<Json>)
    requires |params| >= 1 && LastValues(params).Some?
    ensures Split(ParamsString(LastValues(params).value), ',') == seq(|params|, i requires 0 <= i < |params| => Decimal(IntAt(params[i], -1).value))
  {
    var values := LastValues(params).value;
    var parts := Decimals(values);
    forall i | 0 <= i < |parts| ensures ',' !in parts[i] {
      DecimalHasNoComma(values[i]);
    }
    SplitJoin(parts, ',');
  }

  lemma UpdatesKeepOthers<K, V>(m: map<K, V>, k1: K, v1: V, k2: K, v2: V, k3: K, v3: V)
    ensures var r := m[k1 := v1][k2 := v2][k3 := v3];
            && k3 in r && r[k3] == v3
            && (k2 != k3 ==> k2 in r && r[k2] == v2)
            && (k1 != k2 && k1 != k3 ==> k1 in r && r[k1] == v1)
            && forall k :: k in m && k != k1 && k != k2 && k != k3 ==> k in r && r[k] == m[k]
  {
  }

  /** Reading the `params` string back with `int()` gives exactly the values that were joined. */
  lemma ParamsRoundTrip(values: seq<int>)
    requires |values| >= 1
    ensures var parts := Split(ParamsString(values), ',');
            |parts| == |values| && forall i :: 0 <= i < |values| ==> ParseInt(parts[i]) == Some(values[i])
  {
    var parts := Decimals(values);
    forall i | 0 <= i < |parts| ensures ',' !in parts[i] {
      DecimalHasNoComma(values[i]);
    }
    SplitJoin(parts, ',');
    forall i | 0 <= i < |values| ensures ParseInt(parts[i]) == Some(values[i]) {
      ParseDecimal(values[i]);
    }
  }
}
