/**
 * The finished `Model` and the format check of `Model.load`: the format
 * name must be pure ASCII, is lower-cased, and must name one of the three
 * importers; anything else fails before the file is touched.
 */
module Models {
  import opened Errors

  /** The three importers `Model.load` can dispatch to. */
  datatype Format = LightGBM | XGBoost | Protobuf

  /**
   * An opaque finished model: either read from a file by one of the
   * importers, or finalised from a builder holding `numTrees` trees.
   */
  datatype Model = Imported(format: Format, path: string) | Committed(numTrees: nat)

  /** The lower-case name under which `Model.load` accepts each format. */
  function FormatName(f: Format): string {
    match f
    case LightGBM => "lightgbm"
    case XGBoost => "xgboost"
    case Protobuf => "protobuf"
  }

  /** The number of bytes `c` takes in UTF-8. */
  function Utf8Width(c: char): nat {
    if c as int < 0x80 then 1
    else if c as int < 0x800 then 2
    else if c as int < 0x1_0000 then 3
    else 4
  }

  /** `len(s.encode())`: the length of `s` encoded as UTF-8. */
  function Utf8Length(s: string): (n: nat)
    ensures n >= |s|
    ensures n == |s| ==> s == [] || s[0] as int < 0x80
  {
    if s == [] then 0 else Utf8Width(s[0]) + Utf8Length(s[1..])
  }

  /** `_isascii`: encoding to UTF-8 leaves the length unchanged. */
  predicate IsAscii(s: string) {
    Utf8Length(s) == |s|
  }

  /** The length test of `_isascii` holds exactly when every character is below 128. */
  lemma {:induction false} IsAsciiIff(s: string)
    ensures IsAscii(s) <==> forall i :: 0 <= i < |s| ==> s[i] as int < 0x80
  {
    if s != [] {
      IsAsciiIff(s[1..]);
      assert forall i :: 1 <= i < |s| ==> s[i] == s[1..][i - 1];
    }
  }

  function LowerChar(c: char): char {
    if 'A' <= c <= 'Z' then (c as int + 32) as char else c
  }

  /** `str.lower()` on an ASCII string. */
  function Lower(s: string): (r: string)
    ensures |r| == |s|
  {
    if s == [] then [] else [LowerChar(s[0])] + Lower(s[1..])
  }

  lemma {:induction false} LowerAt(s: string, i: int)
    requires 0 <= i < |s|
    ensures Lower(s)[i] == LowerChar(s[i])
  {
    if i > 0 {
      LowerAt(s[1..], i - 1);
    }
  }

  /** Lower-casing does not introduce non-ASCII characters. */
  lemma LowerKeepsAscii(s: string)
    requires IsAscii(s)
    ensures IsAscii(Lower(s))
  {
  }

  /** Lower-casing twice is lower-casing once. */
  lemma {:induction false} LowerIdempotent(s: string)
    ensures Lower(Lower(s)) == Lower(s)
  {
    if s != [] {
      LowerIdempotent(s[1..]);
    }
  }

  /**
   * The format check and dispatch of `Model.load`: the ASCII test comes
   * first, then the lower-cased name is compared with the three names.
   */
  function ParseFormat(modelFormat: string): (r: Result<Format, Error>)
    ensures !IsAscii(modelFormat) ==> r == Failure(NonAsciiFormat)
    ensures IsAscii(modelFormat) ==> r != Failure(NonAsciiFormat)
    ensures r.Success? ==> FormatName(r.value) == Lower(modelFormat)
    ensures r.Failure? && IsAscii(modelFormat) ==>
      r.error == UnknownFormat && forall f :: FormatName(f) != Lower(modelFormat)
  {
    if !IsAscii(modelFormat) then Failure(NonAsciiFormat)
    else
      var name := Lower(modelFormat);
      if name == "lightgbm" then Success(LightGBM)
      else if name == "xgboost" then Success(XGBoost)
      else if name == "protobuf" then Success(Protobuf)
      else Failure(UnknownFormat)
  }

  /** Every format is accepted under its own name. */
  lemma ParseFormatName(f: Format)
    ensures ParseFormat(FormatName(f)) == Success(f)
  {
    var s := FormatName(f);
    IsAsciiIff(s);
    LowerFixesName(f);
  }

  lemma LowerFixesName(f: Format)
    ensures Lower(FormatName(f)) == FormatName(f)
  {
    var s := FormatName(f);
    forall i | 0 <= i < |s| ensures Lower(s)[i] == s[i] {
      LowerAt(s, i);
    }
  }

  /** The format name is case-insensitive: an ASCII name is judged by its lower-case form. */
  lemma CaseInsensitive(s: string)
    ensures ParseFormat(s) == ParseFormat(Lower(s)) || !IsAscii(s)
  {
    if IsAscii(s) {
      LowerKeepsAscii(s);
      LowerIdempotent(s);
    }
  }

  /**
   * `Model.load(filename, model_format)`: checks the format name, then hands
   * the file to the matching importer (an opaque native call that is
   * assumed to succeed).
   */
  function Load(filename: string, modelFormat: string): (r: Result<Model, Error>)
    ensures r.Success? <==> ParseFormat(modelFormat).Success?
    ensures r.Success? ==> r.value == Imported(ParseFormat(modelFormat).value, filename)
    ensures r.Failure? ==> r.error == ParseFormat(modelFormat).error
  {
    match ParseFormat(modelFormat)
    case Success(f) => Success(Imported(f, filename))
    case Failure(e) => Failure(e)
  }
}
