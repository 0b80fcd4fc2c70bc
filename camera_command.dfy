/**
 * The `/cmd` handler of the camera server: `?var=<name>&val=<number>`
 * names one sensor setting and the value to give it. The handler answers
 * 404 when the query or one of its two parameters is missing, 500 when it
 * cannot allocate the query buffer, when the name is not a setting or when
 * the sensor refuses the value, and 200 otherwise. The sensor driver is
 * abstract: the model records which setter the handler calls and with what.
 */
module CameraCommand {
  import opened Optional
  import opened Decimal

  /** The sensor settings `/cmd` can change, in the order the handler tests their names. */
  datatype Setter =
    | Framesize | Quality | Contrast | Brightness | Saturation | Gainceiling
    | Colorbar | Awb | Agc | Aec | Hmirror | Vflip | AwbGain | AgcGain
    | AecValue | Aec2 | Dcw | Bpc | Wpc | RawGma | Lenc | SpecialEffect
    | WbMode | AeLevel

  /** The `var` value that selects each setting. */
  function SetterName(s: Setter): string {
    match s
    case Framesize => "framesize"
    case Quality => "quality"
    case Contrast => "contrast"
    case Brightness => "brightness"
    case Saturation => "saturation"
    case Gainceiling => "gainceiling"
    case Colorbar => "colorbar"
    case Awb => "awb"
    case Agc => "agc"
    case Aec => "aec"
    case Hmirror => "hmirror"
    case Vflip => "vflip"
    case AwbGain => "awb_gain"
    case AgcGain => "agc_gain"
    case AecValue => "aec_value"
    case Aec2 => "aec2"
    case Dcw => "dcw"
    case Bpc => "bpc"
    case Wpc => "wpc"
    case RawGma => "raw_gma"
    case Lenc => "lenc"
    case SpecialEffect => "special_effect"
    case WbMode => "wb_mode"
    case AeLevel => "ae_level"
  }

  /** The settings in the order the `strcmp` chain of the handler tests their names. */
  const Chain: seq<Setter> := [
    Framesize, Quality, Contrast, Brightness, Saturation, Gainceiling,
    Colorbar, Awb, Agc, Aec, Hmirror, Vflip, AwbGain, AgcGain,
    AecValue, Aec2, Dcw, Bpc, Wpc, RawGma, Lenc, SpecialEffect,
    WbMode, AeLevel]

  /** Where in the chain each setting is tested. */
  function Position(s: Setter): (k: nat)
    ensures k < |Chain| && Chain[k] == s
  {
    match s
    case Framesize => 0
    case Quality => 1
    case Contrast => 2
    case Brightness => 3
    case Saturation => 4
    case Gainceiling => 5
    case Colorbar => 6
    case Awb => 7
    case Agc => 8
    case Aec => 9
    case Hmirror => 10
    case Vflip => 11
    case AwbGain => 12
    case AgcGain => 13
    case AecValue => 14
    case Aec2 => 15
    case Dcw => 16
    case Bpc => 17
    case Wpc => 18
    case RawGma => 19
    case Lenc => 20
    case SpecialEffect => 21
    case WbMode => 22
    case AeLevel => 23
  }

  /** The `strcmp` chain from its i-th test on. */
  function Find(name: string, i: nat): Option<Setter>
    requires i <= |Chain|
    decreases |Chain| - i
  {
    if i == |Chain| then None
    else if name == SetterName(Chain[i]) then Some(Chain[i])
    else Find(name, i + 1)
  }

  /** The `strcmp` chain of the handler: the setting whose name `name` is, or None for any other name. */
  function Lookup(name: string): Option<Setter> {
    Find(name, 0)
  }

  // ---------------------------------------------------------------------------
  // The request

  /** Size of the `variable` and `value` buffers the parameters are copied into. */
  const ParamBufSize: nat := 32

  /** What the HTTP server reports about the URL query of the request. */
  datatype Query =
    | NoQuery                   // no query string, or an empty one
    | BufferUnavailable         // malloc of the query buffer failed
    | Unreadable                // httpd_req_get_url_query_str failed
    | Params(varParam: Option<string>, valParam: Option<string>)
                                // the `var` and `val` parameters, None when absent

  /**
   * httpd_query_key_value succeeds when the key is present and its value,
   * with the terminating NUL, fits the destination buffer.
   */
  predicate Fits(p: Option<string>) {
    p.Some? && |p.value| < ParamBufSize
  }

  /** A setter call the handler makes: which setting, and the `atoi` of `val`. */
  datatype Call = Call(setter: Setter, val: int)

  /** The HTTP status the handler answers with, and the setter it called. */
  datatype Response = Response(status: nat, call: Option<Call>)

  /**
   * cmd_handler. `jpeg` says whether the sensor's pixel format is JPEG;
   * `setterRes` is what the sensor returns if a setter is called.
   */
  function HandleCmd(q: Query, jpeg: bool, setterRes: int): (r: Response)
    ensures r.status in {200, 404, 500}
    ensures r.call.Some? ==> r.status == (if setterRes == 0 then 200 else 500)
  {
    match q
    case NoQuery => Response(404, None)
    case BufferUnavailable => Response(500, None)
    case Unreadable => Response(404, None)
    case Params(v, x) =>
      if !Fits(v) || !Fits(x) then Response(404, None)
      else
        var val := Atoi(x.value);
        match Lookup(v.value)
        case None => Response(500, None)
        case Some(s) =>
          if s == Framesize && !jpeg then Response(200, None)
          else Response(if setterRes == 0 then 200 else 500, Some(Call(s, val)))
  }

  // ---------------------------------------------------------------------------
  // Properties

  /** A name no setting has runs through the whole chain. */
  lemma {:induction false} FindUnknown(name: string, i: nat)
    requires i <= |Chain|
    requires forall s: Setter :: name != SetterName(s)
    ensures Find(name, i) == None
    decreases |Chain| - i
  {
    if i < |Chain| {
      FindUnknown(name, i + 1);
    }
  }

  /** An unknown name selects nothing. */
  lemma LookupUnknown(name: string)
    requires forall s: Setter :: name != SetterName(s)
    ensures Lookup(name) == None
  {
    FindUnknown(name, 0);
  }

  /** The chain stops only at a test that matched. */
  lemma {:induction false} FindSelectsNamed(name: string, i: nat)
    requires i <= |Chain|
    ensures Find(name, i).Some? ==> SetterName(Find(name, i).value) == name
    decreases |Chain| - i
  {
    if i < |Chain| && name != SetterName(Chain[i]) {
      FindSelectsNamed(name, i + 1);
    }
  }

  /** A name selects only the setting it names. */
  lemma LookupSelectsNamed(name: string)
    ensures Lookup(name).Some? ==> SetterName(Lookup(name).value) == name
  {
    FindSelectsNamed(name, 0);
  }

  /** No earlier test in the chain matches the name of the setting tested k-th. */
  lemma {:induction false} NamesDistinctBefore(k: nat)
    requires k < |Chain|
    ensures forall j :: 0 <= j < k ==> SetterName(Chain[k]) != SetterName(Chain[j])
  {
  }

  /** Every setting's name selects that setting: no branch of the chain shadows a later one. */
  lemma LookupSetterName(s: Setter)
    ensures Lookup(SetterName(s)) == Some(s)
  {
    var k := Position(s);
    NamesDistinctBefore(k);
    FindFrom(SetterName(s), 0, k);
  }

  /** A name that only the k-th test matches selects the k-th setting. */
  lemma {:induction false} FindFrom(name: string, i: nat, k: nat)
    requires i <= k < |Chain| && name == SetterName(Chain[k])
    requires forall j :: i <= j < k ==> name != SetterName(Chain[j])
    ensures Find(name, i) == Some(Chain[k])
    decreases k - i
  {
    if i < k {
      FindFrom(name, i + 1, k);
    }
  }

  /** Distinct settings have distinct names. */
  lemma SetterNamesDistinct(s: Setter, t: Setter)
    requires s != t
    ensures SetterName(s) != SetterName(t)
  {
    LookupSetterName(s);
    LookupSetterName(t);
  }

  /** 404 exactly when there is no readable query with both parameters in range. */
  lemma NotFoundCases(q: Query, jpeg: bool, setterRes: int)
    ensures HandleCmd(q, jpeg, setterRes).status == 404 <==>
      q.NoQuery? || q.Unreadable? || (q.Params? && !(Fits(q.varParam) && Fits(q.valParam)))
  {
  }

  /** 500 exactly when the buffer is unavailable, the name is unknown, or the setter refuses. */
  lemma ServerErrorCases(q: Query, jpeg: bool, setterRes: int)
    ensures HandleCmd(q, jpeg, setterRes).status == 500 <==>
      q.BufferUnavailable? ||
      (q.Params? && Fits(q.varParam) && Fits(q.valParam) &&
       (Lookup(q.varParam.value).None? ||
        (setterRes != 0 && !(Lookup(q.varParam.value) == Some(Framesize) && !jpeg))))
  {
  }

  /** A well-formed request for a known setting calls its setter with `atoi(val)`, except framesize on a non-JPEG sensor. */
  lemma CallsNamedSetter(s: Setter, val: string, jpeg: bool, setterRes: int)
    requires |SetterName(s)| < ParamBufSize && |val| < ParamBufSize
    ensures HandleCmd(Params(Some(SetterName(s)), Some(val)), jpeg, setterRes).call ==
      (if s == Framesize && !jpeg then None else Some(Call(s, Atoi(val))))
  {
    LookupSetterName(s);
  }

  /** framesize on a sensor that does not produce JPEG is ignored and still answered with 200. */
  lemma FramesizeNeedsJpeg(val: string, setterRes: int)
    requires |val| < ParamBufSize
    ensures HandleCmd(Params(Some("framesize"), Some(val)), false, setterRes) == Response(200, None)
  {
  }

  /** An unknown name never reaches the sensor and is answered with 500. */
  lemma UnknownNameIsServerError(name: string, val: string, jpeg: bool, setterRes: int)
    requires |name| < ParamBufSize && |val| < ParamBufSize
    requires forall s: Setter :: name != SetterName(s)
    ensures HandleCmd(Params(Some(name), Some(val)), jpeg, setterRes) == Response(500, None)
  {
    LookupUnknown(name);
  }

  /** A value too long for its 32-byte buffer makes the request a 404, whatever the name. */
  lemma LongValueNotFound(name: string, val: string, jpeg: bool, setterRes: int)
    requires |val| >= ParamBufSize
    ensures HandleCmd(Params(Some(name), Some(val)), jpeg, setterRes) == Response(404, None)
  {
  }

  // ---------------------------------------------------------------------------
  // The keys of the `/status` report

  /** The settings `/status` reports, in the order of its JSON object. */
  const StatusSettings: seq<Setter> := [
    Framesize, Quality, Brightness, Contrast, Saturation,
    SpecialEffect, WbMode, Awb, AwbGain, Aec, Aec2,
    AeLevel, AecValue, Agc, AgcGain, Gainceiling, Bpc,
    Wpc, RawGma, Lenc, Hmirror, Dcw, Colorbar]

  /** The JSON keys of the report: each setting under the name `/cmd` accepts for it. */
  const StatusKeys: seq<string> :=
    seq(|StatusSettings|, i requires 0 <= i < |StatusSettings| => SetterName(StatusSettings[i]))

  /** The report's keys, spelt out. */
  lemma StatusKeysText()
    ensures StatusKeys == [
      "framesize", "quality", "brightness", "contrast", "saturation",
      "special_effect", "wb_mode", "awb", "awb_gain", "aec", "aec2",
      "ae_level", "aec_value", "agc", "agc_gain", "gainceiling", "bpc",
      "wpc", "raw_gma", "lenc", "hmirror", "dcw", "colorbar"]
  {
  }

  /** Every reported key is one `/cmd` accepts, and it selects the setting reported under it. */
  lemma StatusKeysSettable(i: nat)
    requires i < |StatusKeys|
    ensures Lookup(StatusKeys[i]) == Some(StatusSettings[i])
  {
    LookupSetterName(StatusSettings[i]);
  }

  /** The report has 23 keys, no two alike. */
  lemma StatusKeysDistinct(i: nat, j: nat)
    requires i < j < |StatusKeys|
    ensures |StatusKeys| == 23
    ensures StatusKeys[i] != StatusKeys[j]
  {
    SetterNamesDistinct(StatusSettings[i], StatusSettings[j]);
  }

  /** vflip is the one setting `/cmd` accepts that `/status` does not report. */
  lemma VflipNotReported(s: Setter)
    ensures s in StatusSettings <==> s != Vflip
  {
  }
}
