/**
  The kt-market admin form for creating or editing a device: its initial
  values, the change handlers for plain, numeric and comma-separated list
  inputs, the CDN preview URL of the thumbnail, and the submit guard. The
  device being edited is a row of JSON values, as in the product actions.
*/
module ProductForm {
  import opened Wrappers
  import opened Text
  import opened JsNumber
  import opened ProductActions

  /** The values a new device starts with, each overridden by the initial data. */
  const FormDefaults: Row := map[
    "is_available" := JBool(true),
    "colors_kr" := JArray([]),
    "capacities" := JArray([]),
    "price" := JNumber(Fin(0.0))
  ]

  /** `defaultValues` */
  function DefaultValues(initialData: Row): (r: Row)
    ensures r.Keys == FormDefaults.Keys + initialData.Keys
    ensures forall k :: k in initialData ==> r[k] == initialData[k]
    ensures forall k :: k in FormDefaults && k !in initialData ==> r[k] == FormDefaults[k]
  {
    FormDefaults + initialData
  }

  /** `handleChange`: a number input stores `Number(value)`, any other input the text. */
  function HandleChange(device: Row, name: string, value: string, isNumberInput: bool): (r: Row)
    ensures r.Keys == device.Keys + {name}
    ensures r[name] == (if isNumberInput then JNumber(ToNumber(value)) else JString(value))
    ensures forall k :: k in device && k != name ==> r[k] == device[k]
  {
    device[name := if isNumberInput then JNumber(ToNumber(value)) else JString(value)]
  }

  // ---------------------------------------------------------------------------
  // Comma-separated lists

  function TrimAll(xs: seq<string>): (r: seq<string>)
    ensures |r| == |xs|
    ensures forall i :: 0 <= i < |r| ==> r[i] == Trim(xs[i])
  {
    if |xs| == 0 then [] else [Trim(xs[0])] + TrimAll(xs[1..])
  }

  /** The non-empty strings of `xs`, in order. */
  function NonEmpty(xs: seq<string>): (r: seq<string>)
    ensures forall i :: 0 <= i < |r| ==> r[i] != ""
    ensures (forall i :: 0 <= i < |xs| ==> xs[i] != "") ==> r == xs
    ensures (forall i :: 0 <= i < |xs| ==> IsTrimmedPiece(xs[i])) ==> (forall i :: 0 <= i < |r| ==> IsListItem(r[i]))
  {
    if |xs| == 0 then []
    else if xs[0] == "" then NonEmpty(xs[1..])
    else [xs[0]] + NonEmpty(xs[1..])
  }

  /** Every non-empty string of `xs` survives the filter. */
  lemma {:induction false} NonEmptyKeeps(xs: seq<string>)
    ensures forall i :: 0 <= i < |xs| && xs[i] != "" ==> xs[i] in NonEmpty(xs)
    decreases |xs|
  {
    if |xs| > 0 {
      NonEmptyKeeps(xs[1..]);
      forall i | 0 <= i < |xs| && xs[i] != "" ensures xs[i] in NonEmpty(xs) {
        if i > 0 {
          assert xs[i] == xs[1..][i - 1];
        }
      }
    }
  }

  /** The filter adds nothing: every survivor is a non-empty string of `xs`. */
  lemma {:induction false} NonEmptyFrom(xs: seq<string>)
    ensures forall s :: s in NonEmpty(xs) ==> s in xs && s != ""
    decreases |xs|
  {
    if |xs| > 0 {
      NonEmptyFrom(xs[1..]);
      assert forall s :: s in xs[1..] ==> s in xs;
    }
  }

  /** The filter works piecewise, so the survivors keep their order. */
  lemma {:induction false} NonEmptyAppend(a: seq<string>, b: seq<string>)
    ensures NonEmpty(a + b) == NonEmpty(a) + NonEmpty(b)
    decreases |a|
  {
    if |a| == 0 {
      assert a + b == b;
    } else {
      assert (a + b)[1..] == a[1..] + b;
      NonEmptyAppend(a[1..], b);
    }
  }

  /** Trimmed, non-empty and free of commas: what a list input can produce. */
  predicate IsListItem(s: string) {
    s != "" && IsTrimmedPiece(s)
  }

  /** A trimmed piece of a comma split. */
  predicate IsTrimmedPiece(s: string) {
    (|s| > 0 ==> !IsJsSpace(s[0]) && !IsJsSpace(s[|s| - 1])) && ',' !in s
  }

  /** Trimming removes characters only from the ends. */
  lemma TrimKeepsAbsent(s: string, c: char)
    requires c !in s
    ensures c !in Trim(s)
  {
    var t := Trim(s);
    assert forall k :: 0 <= k < |t| ==> t[k] == s[TrimOffset(s) + k];
  }

  /** `value.split(',').map(v => v.trim()).filter(v => v !== '')` */
  function ParseList(value: string): (r: seq<string>)
    ensures forall i :: 0 <= i < |r| ==> IsListItem(r[i])
  {
    var pieces := Split(value, ',');
    SplitPiecesFree(value, ',');
    var trimmed := TrimAll(pieces);
    forall i | 0 <= i < |trimmed| ensures IsTrimmedPiece(trimmed[i]) {
      TrimKeepsAbsent(pieces[i], ',');
    }
    NonEmpty(trimmed)
  }

  /** Every comma-separated piece that is not blank is in the list, trimmed. */
  lemma ParseListKeeps(value: string)
    ensures forall p :: p in Split(value, ',') && Trim(p) != "" ==> Trim(p) in ParseList(value)
  {
    var pieces := Split(value, ',');
    var trimmed := TrimAll(pieces);
    assert ParseList(value) == NonEmpty(trimmed);
    NonEmptyKeeps(trimmed);
    forall p | p in pieces && Trim(p) != "" ensures Trim(p) in NonEmpty(trimmed) {
      var i :| 0 <= i < |pieces| && pieces[i] == p;
      assert trimmed[i] == Trim(p);
    }
  }

  /** Every list item is a trimmed piece of the input. */
  lemma ParseListFrom(value: string)
    ensures forall s :: s in ParseList(value) ==> exists p :: p in Split(value, ',') && s == Trim(p)
  {
    forall s | s in ParseList(value) ensures exists p :: p in Split(value, ',') && s == Trim(p) {
      ItemFrom(value, s);
    }
  }

  lemma ItemFrom(value: string, s: string)
    requires s in ParseList(value)
    ensures exists p :: p in Split(value, ',') && s == Trim(p)
  {
    var pieces := Split(value, ',');
    var trimmed := TrimAll(pieces);
    assert ParseList(value) == NonEmpty(trimmed);
    NonEmptyFrom(trimmed);
    var i :| 0 <= i < |trimmed| && trimmed[i] == s;
    assert pieces[i] in pieces && s == Trim(pieces[i]);
  }

  /** The list input shows `items.join(', ')`. */
  function ShowList(items: seq<string>): string {
    Join(items, ", ")
  }

  /** The joined pieces once the space after each comma is moved into the next item. */
  function SpaceLed(xs: seq<string>): (r: seq<string>)
    ensures |r| == |xs|
    ensures forall i :: 0 <= i < |r| ==> r[i] == " " + xs[i]
  {
    if |xs| == 0 then [] else [" " + xs[0]] + SpaceLed(xs[1..])
  }

  lemma {:induction false} JoinCommaSpace(xs: seq<string>)
    requires |xs| >= 1
    ensures Join(xs, ", ") == Join([xs[0]] + SpaceLed(xs[1..]), ",")
    decreases |xs|
  {
    if |xs| > 1 {
      JoinCommaSpace(xs[1..]);
      var ys := [xs[0]] + SpaceLed(xs[1..]);
      var zs := [xs[1]] + SpaceLed(xs[2..]);
      assert ys[1..] == SpaceLed(xs[1..]);
      assert SpaceLed(xs[1..]) == [" " + xs[1]] + SpaceLed(xs[2..]);
      assert Join(ys, ",") == xs[0] + "," + Join(ys[1..], ",");
      JoinPrepend(" ", zs, ",");
      assert Join(ys[1..], ",") == " " + Join(zs, ",");
    }
  }

  lemma SpaceLedCommaFree(items: seq<string>)
    requires |items| >= 1
    requires forall i :: 0 <= i < |items| ==> IsListItem(items[i])
    ensures var ys := [items[0]] + SpaceLed(items[1..]); forall k :: 0 <= k < |ys| ==> ',' !in ys[k]
  {
    var ys := [items[0]] + SpaceLed(items[1..]);
    forall k | 0 <= k < |ys| ensures ',' !in ys[k] {
      if k > 0 {
        assert ys[k] == " " + items[k];
      }
    }
  }

  lemma TrimSpaceLed(items: seq<string>)
    requires |items| >= 1
    requires forall i :: 0 <= i < |items| ==> IsListItem(items[i])
    ensures TrimAll([items[0]] + SpaceLed(items[1..])) == items
  {
    var ys := [items[0]] + SpaceLed(items[1..]);
    var trimmed := TrimAll(ys);
    assert |trimmed| == |ys| == |items|;
    forall k | 0 <= k < |ys| ensures trimmed[k] == items[k] {
      TrimLed(items, k);
    }
  }

  lemma TrimLed(items: seq<string>, k: nat)
    requires k < |items|
    requires IsListItem(items[k])
    ensures Trim(([items[0]] + SpaceLed(items[1..]))[k]) == items[k]
  {
    if k == 0 {
      TrimIdentity(items[0]);
    } else {
      assert ([items[0]] + SpaceLed(items[1..]))[k] == " " + items[k];
      TrimSpaceBefore(items[k]);
    }
  }

  lemma TrimSpaceBefore(x: string)
    requires |x| > 0 ==> !IsJsSpace(x[0]) && !IsJsSpace(x[|x| - 1])
    ensures Trim(" " + x) == x
  {
    TrimAfterSpaces(" ", x);
  }

  /** Editing the list text shown for a list of items gives back the same items. */
  lemma ListRoundTrip(items: seq<string>)
    requires forall i :: 0 <= i < |items| ==> IsListItem(items[i])
    ensures ParseList(ShowList(items)) == items
  {
    if |items| == 0 {
      assert Split("", ',') == [""];
      assert TrimAll([""]) == [""];
    } else {
      var ys := [items[0]] + SpaceLed(items[1..]);
      JoinCommaSpace(items);
      SpaceLedCommaFree(items);
      SplitJoin(ys, ',');
      TrimSpaceLed(items);
    }
  }

  /** `handleArrayChange` */
  function HandleArrayChange(device: Row, name: string, value: string): (r: Row)
    ensures r.Keys == device.Keys + {name}
    ensures name in r && r[name].JArray?
    ensures forall i :: 0 <= i < |r[name].items| ==> r[name].items[i].JString?
    ensures StringsOf(r[name].items) == ParseList(value)
    ensures forall k :: k in device && k != name ==> r[k] == device[k]
  {
    var items := ParseList(value);
    var js := JStrings(items);
    StringsRoundTrip(items);
    device[name := JArray(js)]
  }

  /** The JSON array of the given strings. */
  function JStrings(xs: seq<string>): (js: seq<Json>)
    ensures |js| == |xs|
    ensures forall i :: 0 <= i < |js| ==> js[i] == JString(xs[i])
  {
    if |xs| == 0 then [] else [JString(xs[0])] + JStrings(xs[1..])
  }

  /** The string elements of a JSON array, in order; other elements are skipped. */
  function StringsOf(js: seq<Json>): seq<string> {
    if |js| == 0 then []
    else if js[0].JString? then [js[0].s] + StringsOf(js[1..])
    else StringsOf(js[1..])
  }

  lemma {:induction false} StringsRoundTrip(xs: seq<string>)
    ensures StringsOf(JStrings(xs)) == xs
  {
    if |xs| > 0 {
      assert JStrings(xs)[1..] == JStrings(xs[1..]);
      StringsRoundTrip(xs[1..]);
    }
  }

  // ---------------------------------------------------------------------------
  // Preview URL

  /** The characters `encodeURIComponent` leaves alone. */
  predicate IsUnreserved(c: char) {
    IsAsciiLetter(c) || IsDigit(c) || c in "-_.!~*'()"
  }

  function HexDigit(d: nat): (c: char)
    requires d < 16
    ensures IsDigit(c) || 'A' <= c <= 'F'
  {
    if d < 10 then DigitChar(d) else ('A' as int + d - 10) as char
  }

  /** `%XX` for one byte. */
  function PercentByte(b: nat): (r: string)
    requires b < 256
    ensures |r| == 3 && r[0] == '%' && !IsUnreserved(r[0])
    ensures '/' !in r
  {
    ['%', HexDigit(b / 16), HexDigit(b % 16)]
  }

  /** The UTF-8 bytes of a Unicode scalar value. */
  function Utf8(c: char): (bytes: seq<nat>)
    ensures 1 <= |bytes| <= 4
    ensures forall i :: 0 <= i < |bytes| ==> bytes[i] < 256
  {
    var n := c as int;
    if n < 0x80 then [n]
    else if n < 0x800 then [0xC0 + n / 0x40, 0x80 + n % 0x40]
    else if n < 0x10000 then [0xE0 + n / 0x1000, 0x80 + (n / 0x40) % 0x40, 0x80 + n % 0x40]
    else [0xF0 + n / 0x40000, 0x80 + (n / 0x1000) % 0x40, 0x80 + (n / 0x40) % 0x40, 0x80 + n % 0x40]
  }

  function PercentBytes(bytes: seq<nat>): (r: string)
    requires forall i :: 0 <= i < |bytes| ==> bytes[i] < 256
    ensures |r| == 3 * |bytes|
    ensures '/' !in r
  {
    if |bytes| == 0 then "" else PercentByte(bytes[0]) + PercentBytes(bytes[1..])
  }

  /** `encodeURIComponent` */
  function EncodeUriComponent(s: string): (r: string)
    ensures '/' !in r
    ensures (forall i :: 0 <= i < |s| ==> IsUnreserved(s[i])) ==> r == s
    ensures |r| >= |s|
  {
    if |s| == 0 then ""
    else
      var head := if IsUnreserved(s[0]) then [s[0]] else PercentBytes(Utf8(s[0]));
      head + EncodeUriComponent(s[1..])
  }

  /** A text column, or "" when it is absent or not text. */
  function TextOf(device: Row, name: string): string {
    if name in device && device[name].JString? then device[name].s else ""
  }

  const PreviewFile := "/01.png"

  /**
    `getPreviewUrl`: `<cdn>/phone/<category or model>/<thumbnail>/01.png`, or
    nothing without a thumbnail or without both category and model. An unset
    CDN address is rendered as "undefined".
  */
  function GetPreviewUrl(device: Row, cdn: Option<string>): (r: Option<string>)
    ensures r.Some? <==> TextOf(device, "thumbnail") != "" && (TextOf(device, "category") != "" || TextOf(device, "model") != "")
    ensures r.Some? ==>
      var folder := if TextOf(device, "category") != "" then TextOf(device, "category") else TextOf(device, "model");
      r.value == cdn.GetOr("undefined") + "/phone/" + EncodeUriComponent(folder) + "/"
        + EncodeUriComponent(TextOf(device, "thumbnail")) + PreviewFile
  {
    var thumbnail := TextOf(device, "thumbnail");
    if thumbnail == "" then None
    else
      var categoryPath := if TextOf(device, "category") != "" then TextOf(device, "category") else TextOf(device, "model");
      if categoryPath == "" then None
      else Some(PreviewPath(cdn.GetOr("undefined"), EncodeUriComponent(categoryPath), EncodeUriComponent(thumbnail)))
  }

  function PreviewPath(base: string, folder: string, thumbnail: string): string {
    base + "/phone/" + folder + "/" + thumbnail + PreviewFile
  }

  lemma PreviewPathSegments(base: string, folder: string, thumbnail: string)
    requires '/' !in folder && '/' !in thumbnail
    ensures var url := PreviewPath(base, folder, thumbnail);
      && |url| > |base| && url[..|base| + 1] == base + "/"
      && Split(url[|base| + 1..], '/') == ["phone", folder, thumbnail, "01.png"]
  {
    var tail := "phone" + ['/'] + (folder + ['/'] + (thumbnail + ['/'] + "01.png"));
    assert "/phone/" == ['/'] + "phone" + ['/'];
    assert PreviewFile == ['/'] + "01.png";
    var url := PreviewPath(base, folder, thumbnail);
    assert url == base + ['/'] + tail;
    SplitFour("phone", folder, thumbnail, "01.png", '/');
  }

  /**
    The preview URL keeps its shape whatever the folder and thumbnail names
    are: after the CDN address come exactly the segments "phone", the folder,
    the thumbnail and "01.png".
  */
  lemma PreviewUrlSegments(device: Row, cdn: string)
    requires GetPreviewUrl(device, Some(cdn)).Some?
    ensures var folder := if TextOf(device, "category") != "" then TextOf(device, "category") else TextOf(device, "model");
      var url := GetPreviewUrl(device, Some(cdn)).value;
      && |url| > |cdn| && url[..|cdn| + 1] == cdn + "/"
      && Split(url[|cdn| + 1..], '/') == ["phone", EncodeUriComponent(folder), EncodeUriComponent(TextOf(device, "thumbnail")), "01.png"]
  {
    var folder := if TextOf(device, "category") != "" then TextOf(device, "category") else TextOf(device, "model");
    PreviewPathSegments(cdn, EncodeUriComponent(folder), EncodeUriComponent(TextOf(device, "thumbnail")));
  }

  // ---------------------------------------------------------------------------
  // Submission

  datatype SubmitOutcome =
    | AlreadySubmitting
    | ModelRequired
    | NotConfirmed
    | Submitted(device: Row)

  /** `handleSubmit`: nothing while a submission runs, an alert without a model, then the confirmation. */
  function HandleSubmit(device: Row, submitting: bool, confirmed: bool): (r: SubmitOutcome)
    ensures r.Submitted? <==> !submitting && "model" in device && JsonTruthy(device["model"]) && confirmed
    ensures r.Submitted? ==> r.device == device
    ensures r == ModelRequired <==> !submitting && !("model" in device && JsonTruthy(device["model"]))
    ensures submitting ==> r == AlreadySubmitting
  {
    if submitting then AlreadySubmitting
    else if !("model" in device && JsonTruthy(device["model"])) then ModelRequired
    else if !confirmed then NotConfirmed
    else Submitted(device)
  }
}
