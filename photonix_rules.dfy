/**
 * The value rules inside `record_photo` of photonix/photos/utils/db.py: how
 * each stored attribute is computed from the metadata of one file. They
 * touch no table; `PhotonixDb` uses them.
 */
module PhotonixRules {
  import opened Wrappers
  import opened Text
  import opened Records

  /** The metadata keys tried, in this order, for the capture instant. */
  const PossibleDateKeys: seq<string> := [
    "Date/Time Original", "Date Time Original", "Date/Time", "Date Time",
    "GPS Date/Time", "Modify Date", "File Modification Date/Time"]

  /** Position of the first key whose value parses as an instant, or `|keys|`. */
  function DateKeyIndex(md: Metadata, parse: Option<string> -> Option<Time>, keys: seq<string>): (i: nat)
    ensures i <= |keys|
    ensures forall j :: 0 <= j < i ==> parse(Get(md, keys[j])).None?
    ensures i < |keys| ==> parse(Get(md, keys[i])).Some?
    decreases |keys|
  {
    if |keys| == 0 || parse(Get(md, keys[0])).Some? then 0
    else
      var j := DateKeyIndex(md, parse, keys[1..]);
      assert forall k :: 1 <= k < 1 + j ==> keys[k] == keys[1..][k - 1];
      1 + j
  }

  /**
   * The capture instant: the parse of the first date key whose value
   * parses, None when none of them does.
   */
  function DateTaken(md: Metadata, parse: Option<string> -> Option<Time>): (r: Option<Time>)
    ensures r.None? <==> forall j :: 0 <= j < |PossibleDateKeys| ==> parse(Get(md, PossibleDateKeys[j])).None?
    ensures r.Some? ==> exists j :: 0 <= j < |PossibleDateKeys| && r == parse(Get(md, PossibleDateKeys[j]))
    ensures forall j :: 0 <= j < |PossibleDateKeys| && parse(Get(md, PossibleDateKeys[j])).Some? &&
                        (forall i :: 0 <= i < j ==> parse(Get(md, PossibleDateKeys[i])).None?) ==>
                          r == parse(Get(md, PossibleDateKeys[j]))
  {
    var i := DateKeyIndex(md, parse, PossibleDateKeys);
    if i < |PossibleDateKeys| then parse(Get(md, PossibleDateKeys[i])) else None
  }

  /** The first key that parses is the only index meeting the contract of `DateKeyIndex`. */
  lemma DateKeyIndexIs(md: Metadata, parse: Option<string> -> Option<Time>, keys: seq<string>, i: nat)
    requires i <= |keys|
    requires forall j :: 0 <= j < i ==> parse(Get(md, keys[j])).None?
    requires i < |keys| ==> parse(Get(md, keys[i])).Some?
    ensures DateKeyIndex(md, parse, keys) == i
  {
  }

  /** The loop over `possible_date_keys` that stops at the first key that parses. */
  method ScanDateTaken(md: Metadata, parse: Option<string> -> Option<Time>) returns (date: Option<Time>)
    ensures date == DateTaken(md, parse)
  {
    var keys := PossibleDateKeys;
    date := None;
    var i := 0;
    while i < |keys|
      invariant 0 <= i <= |keys|
      invariant forall j :: 0 <= j < i ==> parse(Get(md, keys[j])).None?
      invariant date.None?
    {
      date := parse(Get(md, keys[i]));
      if date.Some? {
        break;
      }
      i := i + 1;
    }
    DateKeyIndexIs(md, parse, keys, i);
  }

  /** `metadata.get('Make', '')` truncated to the make column's length. */
  function CameraMake(md: Metadata, limits: Limits): (r: string)
    ensures |r| <= limits.make && |r| <= |GetOr(md, "Make", "")|
    ensures r == GetOr(md, "Make", "")[..|r|]
    ensures |r| < limits.make ==> r == GetOr(md, "Make", "")
  {
    Take(GetOr(md, "Make", ""), limits.make)
  }

  /**
   * `metadata.get('Camera Model Name', '')` with every occurrence of the
   * make removed and whitespace stripped, then truncated to the model
   * column's length.
   */
  function CameraModel(md: Metadata, make: string, limits: Limits): (r: string)
    ensures |r| <= limits.model
    ensures r != [] ==> !IsSpace(r[0])
    ensures !Contains(GetOr(md, "Camera Model Name", ""), make) ==>
              r == Take(Strip(GetOr(md, "Camera Model Name", "")), limits.model)
    ensures r == [] <==> limits.model == 0 || AllSpace(RemoveAll(GetOr(md, "Camera Model Name", ""), make))
    ensures GetOr(md, "Camera Model Name", "") != "" ==>
              r == Take(Strip(RemoveAll(GetOr(md, "Camera Model Name", ""), make)), limits.model)
  {
    var raw := GetOr(md, "Camera Model Name", "");
    assert !Contains(raw, make) ==> RemoveAll(raw, make) == raw by {
      if !Contains(raw, make) {
        RemoveAllAbsent(raw, make);
      }
    }
    var model := if raw != "" then Strip(RemoveAll(raw, make)) else raw;
    assert raw == "" ==> RemoveAll(raw, make) == "";
    Take(model, limits.model)
  }

  /**
   * The usual case, a model name that begins with the make ("Canon EOS 5D"
   * with make "Canon"): the make is dropped, and what follows it, stripped
   * and truncated, is the model.
   */
  lemma CameraModelDropsMake(md: Metadata, make: string, limits: Limits, rest: string)
    requires make != [] && GetOr(md, "Camera Model Name", "") == make + rest && !Contains(rest, make)
    ensures CameraModel(md, make, limits) == Take(Strip(rest), limits.model)
  {
    RemoveAllLeading(make, rest);
    RemoveAllAbsent(rest, make);
  }

  /**
   * `int(re.search(r'[0-9]+', iso).group(0))` for a non-empty ISO value: the
   * value of its first run of decimal digits; None when the value is
   * missing or empty or holds no digit.
   */
  function IsoSpeed(md: Metadata): (r: Option<nat>)
    ensures r.None? <==> !Truthy(Get(md, "ISO")) || forall k :: 0 <= k < |md["ISO"]| ==> !IsDigit(md["ISO"][k])
    ensures r.Some? ==> FirstDigitRun(md["ISO"]).Some? && r.value == DigitsValue(FirstDigitRun(md["ISO"]).value)
  {
    if Truthy(Get(md, "ISO")) then
      match FirstDigitRun(md["ISO"])
      case None => None
      case Some(run) => Some(DigitsValue(run))
    else None
  }

  /**
   * The aperture of a new photo: the `Decimal` of a non-empty value, unless
   * it is infinite or cannot be parsed, in which case None.
   */
  function Aperture(md: Metadata, parseDecimal: string -> Option<Decimal>): (r: Option<Decimal>)
    ensures r.Some? ==> Truthy(Get(md, "Aperture")) && parseDecimal(md["Aperture"]) == r && !r.value.Infinity?
    ensures r.None? <==>
              || !Truthy(Get(md, "Aperture"))
              || parseDecimal(md["Aperture"]).None?
              || parseDecimal(md["Aperture"]).value.Infinity?
  {
    if Truthy(Get(md, "Aperture")) then
      match parseDecimal(md["Aperture"])
      case None => None
      case Some(d) => if d.Infinity? then None else Some(d)
    else None
  }

  /** `metadata.get(key, '')[:max] or None`: a truncated string, or None when that is empty. */
  function Truncated(md: Metadata, key: string, max: nat): (r: Option<string>)
    ensures r.None? <==> GetOr(md, key, "") == "" || max == 0
    ensures r.Some? ==> && r.value != "" && |r.value| <= max
                        && StartsWith(md[key], r.value)
                        && (|md[key]| <= max ==> r.value == md[key])
  {
    var t := Take(GetOr(md, key, ""), max);
    if t == "" then None else Some(t)
  }

  /**
   * `fl and fl.split(' ', 1)[0] or None`: the text before the first space,
   * None when the value is missing or that text is empty.
   */
  function FocalLength(md: Metadata): (r: Option<string>)
    ensures r.None? <==> !Truthy(Get(md, "Focal Length")) || md["Focal Length"][0] == ' '
    ensures r.Some? ==> var fl := md["Focal Length"];
              && r.value != "" && ' ' !in r.value && StartsWith(fl, r.value)
              && (|r.value| < |fl| ==> fl[|r.value|] == ' ')
  {
    if Truthy(Get(md, "Focal Length")) then
      var head := BeforeFirst(md["Focal Length"], ' ');
      if head == "" then None else Some(head)
    else None
  }

  /**
   * `flash and 'on' in flash.lower() or False`: true iff the flash
   * description holds "on" in any letter case.
   */
  function Flash(md: Metadata): (r: bool)
    ensures r <==> "Flash" in md &&
                   exists k :: 0 <= k < |md["Flash"]| - 1 &&
                               LowerChar(md["Flash"][k]) == 'o' && LowerChar(md["Flash"][k + 1]) == 'n'
  {
    if Truthy(Get(md, "Flash")) then
      ContainsOnLower(md["Flash"]);
      Contains(Lower(md["Flash"]), "on")
    else false
  }

  /**
   * `alt and alt.split(' ')[0]`: the text before the first space when the
   * value is present (so an empty value stays empty), None when missing.
   */
  function Altitude(md: Metadata): (r: Option<string>)
    ensures r.None? <==> "GPS Altitude" !in md
    ensures r.Some? ==> var alt := md["GPS Altitude"];
              && ' ' !in r.value && StartsWith(alt, r.value)
              && (|r.value| < |alt| ==> alt[|r.value|] == ' ')
  {
    if "GPS Altitude" in md then
      if md["GPS Altitude"] == "" then Some("")
      else
        BeforeFirstIsFirstPiece(md["GPS Altitude"], ' ');
        Some(SplitOn(md["GPS Altitude"], ' ')[0])
    else None
  }

  /**
   * The positions of the pieces that are not all whitespace, in increasing
   * order: every such position, and no other.
   */
  function NonBlank(pieces: seq<string>): (r: seq<nat>)
    ensures |r| <= |pieces|
    ensures forall k :: 0 <= k < |r| ==> r[k] < |pieces| && !AllSpace(pieces[r[k]])
    ensures forall k, m :: 0 <= k < m < |r| ==> r[k] < r[m]
    ensures forall i :: 0 <= i < |pieces| && !AllSpace(pieces[i]) ==> i in r
    decreases |pieces|
  {
    if pieces == [] then []
    else
      var n := |pieces| - 1;
      var init := NonBlank(pieces[..n]);
      assert forall i :: 0 <= i < n ==> pieces[..n][i] == pieces[i];
      if AllSpace(pieces[n]) then init else init + [n]
  }

  /** The pieces of the subject list, each stripped, the empty ones dropped. */
  function CleanTokens(pieces: seq<string>): (r: seq<string>)
    ensures |r| <= |pieces|
    ensures forall k :: 0 <= k < |r| ==> r[k] != "" && !IsSpace(r[k][0]) && !IsSpace(r[k][|r[k]| - 1])
    decreases |pieces|
  {
    if pieces == [] then []
    else
      var init := CleanTokens(pieces[..|pieces| - 1]);
      var t := Strip(pieces[|pieces| - 1]);
      if t == "" then init else init + [t]
  }

  /**
   * What `CleanTokens` keeps: the k-th token is the stripped k-th piece
   * that is not all whitespace, so there is one token per such piece.
   */
  lemma {:induction false} CleanTokensContent(pieces: seq<string>)
    ensures var r := CleanTokens(pieces); var nb := NonBlank(pieces);
            && |r| == |nb|
            && forall k :: 0 <= k < |r| ==> r[k] == Strip(pieces[nb[k]])
    decreases |pieces|
  {
    if pieces != [] {
      var n := |pieces| - 1;
      CleanTokensContent(pieces[..n]);
      TokensExtended(pieces, CleanTokens(pieces[..n]));
    }
  }

  /** The content carries over from all pieces but the last to all of them. */
  lemma TokensExtended(pieces: seq<string>, init: seq<string>)
    requires pieces != []
    requires var before := NonBlank(pieces[..|pieces| - 1]);
             && |init| == |before|
             && forall k :: 0 <= k < |init| ==> init[k] == Strip(pieces[..|pieces| - 1][before[k]])
    ensures var t := Strip(pieces[|pieces| - 1]);
            var r := if t == "" then init else init + [t];
            && |r| == |NonBlank(pieces)|
            && forall k :: 0 <= k < |r| ==> r[k] == Strip(pieces[NonBlank(pieces)[k]])
  {
    var n := |pieces| - 1;
    var before := NonBlank(pieces[..n]);
    assert forall k :: 0 <= k < |before| ==> pieces[..n][before[k]] == pieces[before[k]];
    if !AllSpace(pieces[n]) {
      var all := before + [n];
      assert NonBlank(pieces) == all;
      assert all[|init|] == n;
    }
  }

  /** One more piece adds its stripped text, unless that is empty. */
  lemma CleanTokensStep(pieces: seq<string>, i: nat)
    requires i < |pieces|
    ensures CleanTokens(pieces[..i + 1]) ==
              if Strip(pieces[i]) == "" then CleanTokens(pieces[..i]) else CleanTokens(pieces[..i]) + [Strip(pieces[i])]
  {
    assert pieces[..i + 1][..i] == pieces[..i];
  }

  /** The subject names a new photo is tagged with, in order, duplicates kept. */
  function Subjects(md: Metadata): seq<string> {
    CleanTokens(SplitOn(GetOr(md, "Subject", ""), ','))
  }

  /** The four orientation labels of a quarter-turn rotation. */
  const RotatedOrientations: seq<string> := ["Rotate 90 CW", "Rotate 270 CCW", "Rotate 90 CCW", "Rotate 270 CW"]

  predicate Rotated(md: Metadata) {
    "Orientation" in md && md["Orientation"] in RotatedOrientations
  }

  /**
   * The stored (width, height): the metadata's width and height, swapped
   * exactly when the orientation is a quarter turn.
   */
  function Dimensions(md: Metadata): (r: (Option<string>, Option<string>))
    ensures Rotated(md) ==> r == (Get(md, "Image Height"), Get(md, "Image Width"))
    ensures !Rotated(md) ==> r == (Get(md, "Image Width"), Get(md, "Image Height"))
  {
    var width := Get(md, "Image Width");
    var height := Get(md, "Image Height");
    if Get(md, "Orientation").Some? && Get(md, "Orientation").value in RotatedOrientations
    then (height, width)
    else (width, height)
  }

  /**
   * The stored MIME type: the guess from the path when it is non-empty;
   * otherwise the HEIF type named by a `.heic` or `.heics` extension in any
   * letter case, and the blank guess itself for any other extension.
   */
  function MimeType(path: string, guessed: Option<string>): (r: Option<string>)
    ensures Truthy(guessed) ==> r == guessed
    ensures r != guessed ==> !Truthy(guessed) && (r == Some("image/heic") || r == Some("image/heic-sequence"))
    ensures !Truthy(guessed) ==>
              && (r == Some("image/heic") <==> Lower(Extension(path)) == ".heic")
              && (r == Some("image/heic-sequence") <==> Lower(Extension(path)) == ".heics")
  {
    if Truthy(guessed) then guessed
    else
      var ext := Lower(Extension(path));
      if ext == ".heic" then Some("image/heic")
      else if ext == ".heics" then Some("image/heic-sequence")
      else guessed
  }
}
