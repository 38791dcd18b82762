/** The EXIF overlay shown over a photo: camera and lens names, and the
    exposure settings line. Numbers are JavaScript numbers; how one is
    written as text is the parameter `num`, and `formatShutterSpeed` is the
    parameter `shutter`. */
module ExifOverlay {
  import opened Wrappers
  import opened Text

  const SEPARATOR: string := " · "

  datatype Exif = Exif(
    cameraMake: Option<string>,
    cameraModel: Option<string>,
    lensModel: Option<string>,
    iso: Option<real>,
    aperture: Option<real>,
    shutterSpeed: Option<real>,
    focalLength: Option<real>)

  /** A present, non-zero number is truthy. */
  predicate Truthy(x: Option<real>) {
    x.Some? && x.value != 0.0
  }

  // ---------------------------------------------------------------------
  // formatCamera
  // ---------------------------------------------------------------------

  lemma {:induction false} LowerAppend(a: string, b: string)
    ensures Lower(a + b) == Lower(a) + Lower(b)
  {
    assert forall i :: 0 <= i < |a + b| ==> Lower(a + b)[i] == (Lower(a) + Lower(b))[i];
  }

  /** Make and model with the make left out when the model already starts
      with it, ignoring ASCII case. */
  function FormatCamera(exif: Exif): (r: string)
    ensures exif.cameraMake.GetOr("") == "" && exif.cameraModel.GetOr("") == "" ==> r == ""
    ensures exif.cameraMake.GetOr("") == "" ==> r == exif.cameraModel.GetOr("")
    ensures exif.cameraModel.GetOr("") == "" ==> r == exif.cameraMake.GetOr("")
  {
    var make := exif.cameraMake.GetOr("");
    var model := exif.cameraModel.GetOr("");
    if make == "" && model == "" then ""
    else if make == "" then model
    else if model == "" then make
    else if StartsWith(Lower(model), Lower(make)) then model
    else make + " " + model
  }

  /** `make + " " + model` starts with the make, ignoring case, ends with
      the model and is longer than the model. */
  lemma JoinedNames(make: string, model: string)
    ensures StartsWith(Lower(make + " " + model), Lower(make))
    ensures EndsWith(make + " " + model, model)
    ensures make + " " + model != model
  {
    var r := make + " " + model;
    assert r == make + (" " + model);
    LowerAppend(make, " " + model);
    assert Lower(r)[..|make|] == Lower(make);
    assert r[|r| - |model|..] == model;
    assert |r| != |model|;
  }

  /** With both names present the result names the make once, at the
      start (ignoring case), and ends with the full model; the make is
      dropped exactly when the model already begins with it. */
  lemma CameraNamesMakeOnceAndModel(exif: Exif)
    requires exif.cameraMake.GetOr("") != "" && exif.cameraModel.GetOr("") != ""
    ensures var make, model, r := exif.cameraMake.value, exif.cameraModel.value, FormatCamera(exif);
            && StartsWith(Lower(r), Lower(make))
            && EndsWith(r, model)
            && (r == model <==> StartsWith(Lower(model), Lower(make)))
            && (r != model ==> r == make + " " + model)
  {
    var make, model := exif.cameraMake.value, exif.cameraModel.value;
    if StartsWith(Lower(model), Lower(make)) {
      assert FormatCamera(exif) == model;
      assert model[|model| - |model|..] == model;
    } else {
      assert FormatCamera(exif) == make + " " + model;
      JoinedNames(make, model);
    }
  }

  // ---------------------------------------------------------------------
  // formatLens: lens.replace(/(\d+mm)(F\d)/g, '$1 $2')
  // ---------------------------------------------------------------------

  /** The length of the run of digits that starts `s`. */
  function DigitRun(s: string): (n: nat)
    ensures n <= |s|
    ensures forall i :: 0 <= i < n ==> IsAsciiDigit(s[i])
    ensures n < |s| ==> !IsAsciiDigit(s[n])
  {
    if |s| > 0 && IsAsciiDigit(s[0]) then 1 + DigitRun(s[1..]) else 0
  }

  /** After `n` digits, `s` continues with `mmF` and a digit. */
  predicate StopFollows(s: string, n: nat) {
    n + 4 <= |s| && s[n] == 'm' && s[n + 1] == 'm' && s[n + 2] == 'F' && IsAsciiDigit(s[n + 3])
  }

  /** The global replace: scanning left to right, a match is tried at each
      position; after a match the scan resumes behind the matched `F` and
      digit. A match found at a position starts with its whole digit run. */
  function FormatLens(s: string): (r: string)
    ensures |s| <= |r|
    decreases |s|
  {
    if |s| == 0 then ""
    else
      var n := DigitRun(s);
      if n > 0 && StopFollows(s, n) then s[..n + 2] + " " + s[n + 2..n + 4] + FormatLens(s[n + 4..])
      else [s[0]] + FormatLens(s[1..])
  }

  /** `done` ends with a digit followed by `mm`. */
  predicate EndsWithDigitMm(done: string) {
    |done| >= 3 && IsAsciiDigit(done[|done| - 3]) && done[|done| - 2] == 'm' && done[|done| - 1] == 'm'
  }

  /** `t` is `s` with single spaces inserted, each one right after a digit
      and `mm` and right before `F` and a digit. `done` is the part of the
      original already read. */
  predicate SpaceInsertion(t: string, s: string, done: string)
    decreases |t|
  {
    if |t| == 0 then |s| == 0
    else if |s| > 0 && t[0] == s[0] then SpaceInsertion(t[1..], s[1..], done + [s[0]])
    else
      && t[0] == ' ' && EndsWithDigitMm(done)
      && |s| >= 2 && s[0] == 'F' && IsAsciiDigit(s[1])
      && SpaceInsertion(t[1..], s, done)
  }

  lemma {:induction false} SpaceInsertionCopy(x: string, t: string, s: string, done: string)
    requires SpaceInsertion(t, s, done + x)
    ensures SpaceInsertion(x + t, x + s, done)
    decreases |x|
  {
    if |x| > 0 {
      assert done + x == (done + [x[0]]) + x[1..];
      SpaceInsertionCopy(x[1..], t, s, done + [x[0]]);
      assert (x + t)[1..] == x[1..] + t;
      assert (x + s)[1..] == x[1..] + s;
    } else {
      assert x + t == t && x + s == s && done + x == done;
    }
  }

  /** One match: the digits and `mm` are copied, the space is inserted,
      `F` and its digit are copied. */
  lemma MatchStep(s: string, n: nat, done: string, tail: string)
    requires 0 < n && StopFollows(s, n) && IsAsciiDigit(s[n - 1])
    requires SpaceInsertion(tail, s[n + 4..], done + s[..n + 4])
    ensures SpaceInsertion(s[..n + 2] + " " + s[n + 2..n + 4] + tail, s, done)
  {
    var x, y, rest := s[..n + 2], s[n + 2..n + 4], s[n + 2..];
    assert x + y == s[..n + 4];
    assert (done + x) + y == done + s[..n + 4];
    SpaceInsertionCopy(y, tail, s[n + 4..], done + x);
    assert y + s[n + 4..] == rest;
    var t1 := y + tail;
    assert EndsWithDigitMm(done + x) by {
      assert (done + x)[|done + x| - 3] == s[n - 1];
    }
    assert (" " + t1)[1..] == t1;
    assert SpaceInsertion(" " + t1, rest, done + x);
    SpaceInsertionCopy(x, " " + t1, rest, done);
    assert x + (" " + t1) == s[..n + 2] + " " + s[n + 2..n + 4] + tail;
    assert x + rest == s;
  }

  /** formatLens only inserts spaces, and only between `<digits>mm` and a
      directly following `F<digit>`: deleting those spaces gives the
      input back. */
  lemma {:induction false} FormatLensOnlyInsertsSpaces(s: string, done: string)
    ensures SpaceInsertion(FormatLens(s), s, done)
    decreases |s|
  {
    if |s| > 0 {
      var n := DigitRun(s);
      if n > 0 && StopFollows(s, n) {
        FormatLensOnlyInsertsSpaces(s[n + 4..], done + s[..n + 4]);
        MatchStep(s, n, done, FormatLens(s[n + 4..]));
      } else {
        FormatLensOnlyInsertsSpaces(s[1..], done + [s[0]]);
        SpaceInsertionCopy([s[0]], FormatLens(s[1..]), s[1..], done);
        assert [s[0]] + s[1..] == s;
      }
    }
  }

  /** A lens name with no `<digit>mmF<digit>` in it is shown as it is. */
  lemma {:induction false} FormatLensNoStopUnchanged(s: string)
    requires forall i :: 0 <= i < |s| ==> !StopFollows(s[i..], 1) || !IsAsciiDigit(s[i])
    ensures FormatLens(s) == s
    decreases |s|
  {
    if |s| > 0 {
      var n := DigitRun(s);
      if n > 0 {
        assert s[n - 1..][1..] == s[n..];
        assert !StopFollows(s[n - 1..], 1);
      }
      assert forall i :: 0 <= i < |s[1..]| ==> s[1..][i..] == s[i + 1..];
      FormatLensNoStopUnchanged(s[1..]);
      assert [s[0]] + s[1..] == s;
    }
  }

  /** A run of digits followed by a non-digit (or nothing) is read whole. */
  lemma {:induction false} DigitRunOfWord(d: string, t: string)
    requires forall i :: 0 <= i < |d| ==> IsAsciiDigit(d[i])
    requires |t| > 0 ==> !IsAsciiDigit(t[0])
    ensures DigitRun(d + t) == |d|
    decreases |d|
  {
    if |d| == 0 {
      assert d + t == t;
    } else {
      assert (d + t)[0] == d[0];
      assert (d + t)[1..] == d[1..] + t;
      DigitRunOfWord(d[1..], t);
    }
  }

  /** The space is inserted: `<digits>mmF<digit>` becomes
      `<digits>mm F<digit>`, and the scan goes on behind the digit. */
  lemma FormatLensInsertsSpace(d: string, x: char, rest: string)
    requires |d| > 0 && forall i :: 0 <= i < |d| ==> IsAsciiDigit(d[i])
    requires IsAsciiDigit(x)
    ensures FormatLens(d + "mmF" + [x] + rest) == d + "mm F" + [x] + FormatLens(rest)
  {
    var t := "mmF" + [x] + rest;
    var s := d + t;
    var n := |d|;
    assert s == d + "mmF" + [x] + rest;
    assert DigitRun(s) == n by {
      DigitRunOfWord(d, t);
    }
    assert StopFollows(s, n) by {
      assert s[n..n + 4] == "mmF" + [x];
    }
    var head, stop := s[..n + 2], s[n + 2..n + 4];
    assert FormatLens(s) == head + " " + stop + FormatLens(s[n + 4..]);
    assert head == d + "mm";
    assert stop == "F" + [x];
    assert s[n + 4..] == rest;
    assert head + " " + stop == d + "mm F" + [x];
  }

  /** Text without digits cannot start a match and is copied as it is. */
  lemma {:induction false} FormatLensCopiesNonDigits(a: string, s: string)
    requires forall i :: 0 <= i < |a| ==> !IsAsciiDigit(a[i])
    ensures FormatLens(a + s) == a + FormatLens(s)
    decreases |a|
  {
    if |a| == 0 {
      assert a + s == s;
    } else {
      var t := a + s;
      assert t[0] == a[0];
      assert DigitRun(t) == 0;
      assert t[1..] == a[1..] + s;
      FormatLensCopiesNonDigits(a[1..], s);
      assert [a[0]] + (a[1..] + FormatLens(s)) == a + FormatLens(s);
    }
  }

  /** The example of the source's comment. */
  lemma FormatLensExample()
    ensures FormatLens("50mmF2.8") == "50mm F2.8"
  {
    var tail := FormatLens(".8");
    assert tail == ".8" by {
      FormatLensNoStopUnchanged(".8");
    }
    assert FormatLens("50" + "mmF" + ['2'] + ".8") == "50" + "mm F" + ['2'] + tail by {
      FormatLensInsertsSpace("50", '2', ".8");
    }
    assert "50" + "mmF" + ['2'] + ".8" == "50mmF2.8";
    assert "50" + "mm F" + ['2'] + ".8" == "50mm F2.8";
  }

  // ---------------------------------------------------------------------
  // The component
  // ---------------------------------------------------------------------

  /** The settings in order aperture, shutter speed, ISO, focal length,
      each only when truthy. */
  function SettingsList(exif: Exif, num: real -> string, shutter: real -> string): seq<string> {
    (if Truthy(exif.aperture) then ["f/" + num(exif.aperture.value)] else [])
    + (if Truthy(exif.shutterSpeed) then [shutter(exif.shutterSpeed.value)] else [])
    + (if Truthy(exif.iso) then ["ISO " + num(exif.iso.value)] else [])
    + (if Truthy(exif.focalLength) then [num(exif.focalLength.value) + "mm"] else [])
  }

  /** The conditional pushes of the component. */
  method BuildSettings(exif: Exif, num: real -> string, shutter: real -> string) returns (settings: seq<string>)
    ensures settings == SettingsList(exif, num, shutter)
    ensures |settings| == (if Truthy(exif.aperture) then 1 else 0) + (if Truthy(exif.shutterSpeed) then 1 else 0)
                          + (if Truthy(exif.iso) then 1 else 0) + (if Truthy(exif.focalLength) then 1 else 0)
  {
    settings := [];
    if Truthy(exif.aperture) {
      settings := settings + ["f/" + num(exif.aperture.value)];
    }
    if Truthy(exif.shutterSpeed) {
      settings := settings + [shutter(exif.shutterSpeed.value)];
    }
    if Truthy(exif.iso) {
      settings := settings + ["ISO " + num(exif.iso.value)];
    }
    if Truthy(exif.focalLength) {
      settings := settings + [num(exif.focalLength.value) + "mm"];
    }
  }

  /** The equipment line: camera, then ` · ` only when both are present,
      then lens. */
  function EquipmentLine(camera: string, lens: Option<string>): (line: string)
    ensures camera != "" && lens.Some? ==> line == camera + SEPARATOR + lens.value
    ensures camera == "" ==> line == lens.GetOr("")
    ensures lens.None? ==> line == camera
  {
    camera + (if camera != "" && lens.Some? then SEPARATOR else "") + lens.GetOr("")
  }

  /** What the overlay renders: an optional equipment line and an optional
      settings line. */
  datatype Overlay = Overlay(equipment: Option<string>, settings: Option<string>)

  method RenderOverlay(exif: Option<Exif>, num: real -> string, shutter: real -> string) returns (r: Option<Overlay>)
    ensures exif.None? ==> r.None?
    ensures exif.Some? ==>
              var e := exif.value;
              var camera := FormatCamera(e);
              var lens := if e.lensModel.GetOr("") != "" then Some(FormatLens(e.lensModel.value)) else None;
              var anySetting := Truthy(e.aperture) || Truthy(e.shutterSpeed) || Truthy(e.iso) || Truthy(e.focalLength);
              && (r.None? <==> camera == "" && lens.None? && !anySetting)
              && (r.Some? ==> r.value.equipment == (if camera != "" || lens.Some? then Some(EquipmentLine(camera, lens)) else None))
              && (r.Some? ==> r.value.settings == (if anySetting then Some(Join(SettingsList(e, num, shutter), SEPARATOR)) else None))
  {
    if exif.None? {
      return None;
    }
    var e := exif.value;
    var camera := FormatCamera(e);
    var lens := if e.lensModel.GetOr("") != "" then Some(FormatLens(e.lensModel.value)) else None;
    var settings := BuildSettings(e, num, shutter);
    if camera == "" && lens.None? && |settings| == 0 {
      return None;
    }
    var equipment := if camera != "" || lens.Some? then Some(EquipmentLine(camera, lens)) else None;
    var line := if |settings| > 0 then Some(Join(settings, SEPARATOR)) else None;
    return Some(Overlay(equipment, line));
  }
}
