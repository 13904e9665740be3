/**
 * The hand-written validators of the persisted environment record: the
 * `assets` list and the `settings` object.
 */
module EnvironmentModel {
  import opened JsValues
  import SessionModel

  // ---------------------------------------------------------------------
  // assets

  /** The asset types the validator admits. The asset table also knows
      `script` and `animation`; this list does not. */
  const AssetTypes: seq<JsValue> := [Str("model"), Str("texture"), Str("audio")]

  /** The body of the `forEach` callback, for one asset: the structure check
      (`type`, `url`, `checksum` truthy and `size` a number) and only then the
      type check. Reading a field of a nullish asset throws a TypeError. */
  function CheckAsset(asset: JsValue): Outcome {
    if Nullish(asset) then Fail(TypeError)
    else if !Truthy(Field(asset, "type")) || !Truthy(Field(asset, "url")) ||
            !Truthy(Field(asset, "checksum")) || !IsNumber(Field(asset, "size"))
    then Fail(Error("Invalid asset structure"))
    else if Field(asset, "type") !in AssetTypes then Fail(Error("Invalid asset type"))
    else Pass
  }

  /** The `forEach`: assets in order, stopping at the first that throws. */
  function CheckAssets(assets: seq<JsValue>): Outcome {
    if assets == [] then Pass
    else if CheckAsset(assets[0]).Fail? then CheckAsset(assets[0])
    else CheckAssets(assets[1..])
  }

  /** `isValidAssets`. */
  function ValidateAssets(value: JsValue): Outcome {
    if !value.Arr? then Fail(Error("Assets must be an array")) else CheckAssets(value.items)
  }

  /** What a good asset is, stated field by field. */
  predicate GoodAsset(asset: JsValue) {
    && asset.Obj?
    && "type" in asset.fields
    && asset.fields["type"] in {Str("model"), Str("texture"), Str("audio")}
    && "url" in asset.fields && Truthy(asset.fields["url"])
    && "checksum" in asset.fields && Truthy(asset.fields["checksum"])
    && "size" in asset.fields && asset.fields["size"].Num?
  }

  /** One asset passes exactly when it is a good asset. */
  lemma CheckAssetIff(asset: JsValue)
    ensures CheckAsset(asset) == Pass <==> GoodAsset(asset)
  {
    if !asset.Obj? && !Nullish(asset) {
      assert Field(asset, "type") == Undefined;
    }
  }

  /** The list passes exactly when every asset is good; otherwise the error
      is that of the first asset that fails, all earlier ones being good. */
  lemma {:induction false} CheckAssetsIff(assets: seq<JsValue>)
    ensures CheckAssets(assets) == Pass <==> forall i :: 0 <= i < |assets| ==> GoodAsset(assets[i])
    ensures CheckAssets(assets) != Pass ==>
              exists k :: 0 <= k < |assets| &&
                (forall j :: 0 <= j < k ==> GoodAsset(assets[j])) &&
                !GoodAsset(assets[k]) && CheckAssets(assets) == CheckAsset(assets[k])
  {
    if assets != [] {
      CheckAssetIff(assets[0]);
      CheckAssetsIff(assets[1..]);
      if CheckAsset(assets[0]).Pass? {
        assert forall i :: 1 <= i < |assets| ==> assets[i] == assets[1..][i - 1];
        if CheckAssets(assets) != Pass {
          var k :| 0 <= k < |assets[1..]| &&
                   (forall j :: 0 <= j < k ==> GoodAsset(assets[1..][j])) &&
                   !GoodAsset(assets[1..][k]) && CheckAssets(assets[1..]) == CheckAsset(assets[1..][k]);
          assert forall j :: 0 <= j < k + 1 ==> GoodAsset(assets[j]);
          assert assets[k + 1] == assets[1..][k];
        }
      }
    }
  }

  /** `isValidAssets` accepts exactly the arrays of good assets, the empty
      array among them, and rejects every non-array with the array message. */
  lemma AssetsAcceptedIff(value: JsValue)
    ensures ValidateAssets(value) == Pass <==>
              value.Arr? && forall i :: 0 <= i < |value.items| ==> GoodAsset(value.items[i])
    ensures !value.Arr? <==> ValidateAssets(value) == Fail(Error("Assets must be an array"))
    ensures ValidateAssets(Arr([])) == Pass
  {
    if value.Arr? {
      CheckAssetsIff(value.items);
      if ValidateAssets(value) != Pass {
        var k :| 0 <= k < |value.items| && CheckAssets(value.items) == CheckAsset(value.items[k]);
        assert CheckAsset(value.items[k]) != Fail(Error("Assets must be an array"));
      }
    }
  }

  /** An asset with every field, of the given type and size. */
  function SampleAsset(kind: string, size: real): JsValue {
    Obj(map["type" := Str(kind), "url" := Str("https://cdn/a.glb"), "checksum" := Str("abc"), "size" := Num(size)])
  }

  /** A `size` of zero is fine; `script` and `animation` are refused as types. */
  lemma AssetTypeExamples()
    ensures CheckAsset(SampleAsset("model", 0.0)) == Pass
    ensures CheckAsset(SampleAsset("script", 10.0)) == Fail(Error("Invalid asset type"))
    ensures CheckAsset(SampleAsset("animation", 10.0)) == Fail(Error("Invalid asset type"))
  {
    var good := SampleAsset("model", 0.0);
    assert Field(good, "type") == Str("model");
    assert Field(SampleAsset("script", 10.0), "type") == Str("script");
    assert Field(SampleAsset("animation", 10.0), "type") == Str("animation");
  }

  /** The structure check comes first: an asset whose type is unknown and
      whose checksum is missing gets the structure error, not the type error. */
  lemma StructureCheckedBeforeType(size: real)
    ensures CheckAsset(Obj(map["type" := Str("script"), "url" := Str("u"), "size" := Num(size)])) ==
              Fail(Error("Invalid asset structure"))
  {
    var a := Obj(map["type" := Str("script"), "url" := Str("u"), "size" := Num(size)]);
    assert Field(a, "checksum") == Undefined;
  }

  /** A string `size` fails the structure check even when it holds digits. */
  lemma SizeMustBeANumber()
    ensures CheckAsset(Obj(map["type" := Str("audio"), "url" := Str("u"), "checksum" := Str("c"), "size" := Str("12")])) ==
              Fail(Error("Invalid asset structure"))
  {
  }

  // ---------------------------------------------------------------------
  // settings

  /** The qualities the settings validator admits; `'720p'` is not one. */
  const SettingQualities: seq<JsValue> := [Str("4K"), Str("2K"), Str("1080p")]

  /** `isValidSettings`: `maxUsers` a number of at least 1, then `quality`
      one of the three admitted names. */
  function ValidateSettings(value: JsValue): Outcome {
    if Nullish(value) then Fail(TypeError)
    else
      var maxUsers := Field(value, "maxUsers");
      if !IsNumber(maxUsers) || maxUsers.n < 1.0 then Fail(Error("maxUsers must be a positive number"))
      else if Field(value, "quality") !in SettingQualities then Fail(Error("Invalid quality setting"))
      else Pass
  }

  /** The column default `{maxUsers: 50, allowInteraction: true, quality: '2K'}`. */
  const DefaultSettings: JsValue :=
    Obj(map["maxUsers" := Num(50.0), "allowInteraction" := Bool(true), "quality" := Str("2K")])

  /** Settings with the given `maxUsers` and `quality` and nothing else. */
  function Settings(maxUsers: JsValue, quality: JsValue): JsValue {
    Obj(map["maxUsers" := maxUsers, "quality" := quality])
  }

  /** Over every value: a nullish one throws a TypeError; otherwise the
      settings pass exactly when `maxUsers` is a number of at least 1 and
      `quality` is one of the three admitted names. A bad `maxUsers` is
      reported first, and only then a bad `quality`. Other keys, such as
      `allowInteraction`, play no part. */
  lemma SettingsAcceptedIff(value: JsValue)
    ensures Nullish(value) ==> ValidateSettings(value) == Fail(TypeError)
    ensures !Nullish(value) ==>
              (ValidateSettings(value) == Pass <==>
                 && IsNumber(Field(value, "maxUsers")) && Field(value, "maxUsers").n >= 1.0
                 && Field(value, "quality") in SettingQualities)
    ensures !Nullish(value) && !(IsNumber(Field(value, "maxUsers")) && Field(value, "maxUsers").n >= 1.0) ==>
              ValidateSettings(value) == Fail(Error("maxUsers must be a positive number"))
    ensures !Nullish(value) && IsNumber(Field(value, "maxUsers")) && Field(value, "maxUsers").n >= 1.0 &&
            Field(value, "quality") !in SettingQualities ==>
              ValidateSettings(value) == Fail(Error("Invalid quality setting"))
  {
  }

  /** The admitted settings qualities are exactly the names of the session
      quality tiers other than 720p. */
  lemma SettingQualitiesAreTiersBut720p(quality: JsValue)
    ensures quality in SettingQualities <==>
              && quality.Str?
              && SessionModel.ParseQuality(quality.s).Some?
              && SessionModel.ParseQuality(quality.s) != Some(SessionModel.Q720p)
  {
    if quality.Str? {
      var q := quality.s;
      assert SessionModel.ParseQuality(q).Some? && SessionModel.ParseQuality(q) != Some(SessionModel.Q720p)
        <==> q == "4K" || q == "2K" || q == "1080p";
    }
  }

  /** Every tier but 720p is an admissible settings quality. */
  lemma SettingsAdmitTiersBut720p(q: SessionModel.QualityLevel)
    ensures ValidateSettings(Settings(Num(50.0), Str(SessionModel.QualityName(q)))) == Pass <==> q != SessionModel.Q720p
  {
    var v := Settings(Num(50.0), Str(SessionModel.QualityName(q)));
    assert Field(v, "maxUsers") == Num(50.0);
    assert Field(v, "quality") == Str(SessionModel.QualityName(q));
    SettingQualitiesAreTiersBut720p(Str(SessionModel.QualityName(q)));
    SessionModel.QualityNameRoundTrip(q, SessionModel.QualityName(q));
  }

  /** The default settings pass, and a fractional `maxUsers` of at least 1 does too. */
  lemma DefaultSettingsValid()
    ensures ValidateSettings(DefaultSettings) == Pass
    ensures ValidateSettings(Settings(Num(1.5), Str("4K"))) == Pass
    ensures ValidateSettings(Settings(Num(0.5), Str("4K"))) == Fail(Error("maxUsers must be a positive number"))
    ensures ValidateSettings(Settings(Str("10"), Str("4K"))) == Fail(Error("maxUsers must be a positive number"))
  {
    assert Field(DefaultSettings, "maxUsers") == Num(50.0);
    assert Field(DefaultSettings, "quality") == Str("2K");
    assert Field(Settings(Num(1.5), Str("4K")), "maxUsers") == Num(1.5);
    assert Field(Settings(Num(1.5), Str("4K")), "quality") == Str("4K");
    assert Field(Settings(Num(0.5), Str("4K")), "maxUsers") == Num(0.5);
    assert Field(Settings(Str("10"), Str("4K")), "maxUsers") == Str("10");
  }
}
