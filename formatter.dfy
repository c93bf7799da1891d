/**
 * The identifier formatter of back/index.js: `fillNzeros`, which left-pads a
 * value with '0', and the two ids built from it, the composite well id and the
 * surface-point id.
 *
 * `fillNzeros` is reproduced with its quirks: width 2 always prepends exactly
 * one '0', and a string one character shorter than the width is not padded.
 * `PadLeft` is the ordinary left pad it is compared against.
 */
module Formatter {
  import opened Wrappers
  import opened JsValues

  /** The exception `fillNzeros` raises when it reads `.length` of `undefined` or `null`. */
  datatype JsError = TypeError

  /** `n` zero characters (the joined array of zeros `fillNzeros` builds). */
  function Zeros(n: nat): (z: string)
    ensures |z| == n && forall i :: 0 <= i < n ==> z[i] == '0'
  {
    if n == 0 then "" else Zeros(n - 1) + "0"
  }

  /** `r` is `str` preceded only by '0' characters. */
  predicate ZeroPadded(r: string, str: string) {
    |str| <= |r| && r[|r| - |str|..] == str && forall i :: 0 <= i < |r| - |str| ==> r[i] == '0'
  }

  /** `fillNzeros(str, N)` for a string `str`. */
  function FillNZeros(str: string, n: int): (r: string)
    ensures ZeroPadded(r, str)
  {
    if n == 2 then "0" + str
    else if n - |str| - 1 <= 0 then str
    else Zeros(n - |str|) + str
  }

  /** `fillNzeros` as the source runs it, collecting the zeros in a loop. */
  method FillNZerosLoop(str: string, n: int) returns (r: string)
    ensures r == FillNZeros(str, n)
  {
    if n == 2 {
      return "0" + str;
    }
    if n - |str| - 1 <= 0 {
      return str;
    }
    var arr := "";
    for i := 0 to n - |str|
      invariant |arr| == i && forall j :: 0 <= j < i ==> arr[j] == '0'
    {
      arr := arr + "0";
    }
    r := arr + str;
  }

  /** The usual left pad: `str` preceded by as many '0' as it takes to reach width `w`. */
  function PadLeft(str: string, w: nat): (r: string)
    ensures ZeroPadded(r, str)
    ensures |r| == if |str| < w then w else |str|
  {
    if |str| < w then Zeros(w - |str|) + str else str
  }

  /** Leading zeros do not change the number a string of digits denotes. */
  lemma {:induction false} ZerosKeepValue(k: nat, s: string)
    requires IsDigits(s)
    ensures IsDigits(Zeros(k) + s) && DecimalValue(Zeros(k) + s) == DecimalValue(s)
  {
    var t := Zeros(k) + s;
    if s == [] {
      assert t == Zeros(k);
      if k > 0 {
        assert t[..|t| - 1] == Zeros(k - 1) + s;
        ZerosKeepValue(k - 1, s);
      }
    } else {
      assert t[..|t| - 1] == Zeros(k) + s[..|s| - 1];
      ZerosKeepValue(k, s[..|s| - 1]);
    }
  }

  /** Left-padding a string of digits with zeros keeps the number it denotes. */
  lemma PadLeftKeepsValue(s: string, w: nat)
    requires IsDigits(s)
    ensures IsDigits(PadLeft(s, w)) && DecimalValue(PadLeft(s, w)) == DecimalValue(s)
  {
    if |s| < w {
      ZerosKeepValue(w - |s|, s);
    }
  }

  /** Width 2 prepends exactly one '0', whatever the length of `str`. */
  lemma FillWidthTwo(str: string)
    ensures FillNZeros(str, 2) == "0" + str
    ensures |FillNZeros(str, 2)| == |str| + 1
  {
  }

  /** For any other width, a string at most one character shorter than the width comes back unchanged. */
  lemma FillLongUnchanged(str: string, n: int)
    requires n != 2 && |str| >= n - 1
    ensures FillNZeros(str, n) == str
  {
  }

  /** For any other width, a string shorter than width - 1 is padded to exactly the width. */
  lemma FillShortPadded(str: string, n: int)
    requires n != 2 && |str| < n - 1
    ensures |FillNZeros(str, n)| == n
    ensures FillNZeros(str, n) == Zeros(n - |str|) + str
  {
  }

  /**
   * `fillNzeros` agrees with the usual left pad exactly outside its two
   * quirks: at width 2 only a one-character string comes out right, and at
   * any other width only the string of length width - 1 comes out wrong.
   */
  lemma FillNZerosVersusPadLeft(str: string, n: nat)
    ensures FillNZeros(str, n) == PadLeft(str, n) <==> if n == 2 then |str| == 1 else |str| != n - 1
  {
    if n == 2 {
      if |str| != 1 {
        assert |FillNZeros(str, n)| != |PadLeft(str, n)|;
      }
    } else if |str| == n - 1 {
      assert |FillNZeros(str, n)| != |PadLeft(str, n)|;
    }
  }

  /**
   * `fillNzeros(v, N)` for any request value. Reading `.length` of `undefined`
   * or `null` throws; a number or a boolean has no `.length`, so both tests
   * compare against NaN, fail, and the value comes back as its text, unpadded.
   */
  function FillNZerosJs(v: JsValue, n: int): (r: Result<string, JsError>)
    ensures r.Failure? <==> n != 2 && (v.Undefined? || v.Null?)
    ensures v.Str? ==> r == Success(FillNZeros(v.s, n))
  {
    if n == 2 then Success("0" + ToStr(v))
    else match v
      case Undefined => Failure(TypeError)
      case Null => Failure(TypeError)
      case Str(s) => Success(FillNZeros(s, n))
      case _ => Success(ToStr(v))
  }

  /** A number is never padded at widths other than 2: `fillNzeros(7, 6)` is "7". */
  lemma FillNumberUnpadded(x: int, n: int)
    requires n != 2
    ensures FillNZerosJs(Num(x), n) == Success(ToStr(Num(x)))
  {
  }

  /**
   * The composite well id of the create handler:
   * `fillNzeros(sourceField, 4) + fillNzeros(well_s, 6) + fillNzeros(well_id, 2)`,
   * evaluated left to right, so the first exception wins.
   */
  function CompositeWellId(sourceField: JsValue, wellS: JsValue, wellId: JsValue): (r: Result<string, JsError>)
    ensures r.Failure? <==> sourceField.Undefined? || sourceField.Null? || wellS.Undefined? || wellS.Null?
  {
    var field :- FillNZerosJs(sourceField, 4);
    var serial :- FillNZerosJs(wellS, 6);
    var original := FillNZerosJs(wellId, 2).value;
    Success(field + serial + original)
  }

  /**
   * When the field code has at most 2 characters and the serial at most 4, the
   * composite id splits at fixed offsets: 4 characters of zero-padded field
   * code, 6 of zero-padded serial, then '0' and the original well id.
   */
  lemma {:induction false} CompositeWellIdLayout(field: string, serial: string, wellId: string)
    requires |field| <= 2 && |serial| <= 4
    ensures CompositeWellId(Str(field), Str(serial), Str(wellId)).Success?
    ensures var c := CompositeWellId(Str(field), Str(serial), Str(wellId)).value;
            && |c| == 11 + |wellId|
            && c[..4] == PadLeft(field, 4)
            && c[4..10] == PadLeft(serial, 6)
            && c[10..] == "0" + wellId
  {
    FillShortPadded(field, 4);
    FillShortPadded(serial, 6);
    var c := CompositeWellId(Str(field), Str(serial), Str(wellId)).value;
    assert c == FillNZeros(field, 4) + FillNZeros(serial, 6) + ("0" + wellId);
  }

  /** Field "22", serial "7" and well id "1" give the composite id "002200000701". */
  lemma CompositeWellIdExample()
    ensures CompositeWellId(Str("22"), Str("7"), Str("1")) == Success("002200000701")
  {
    assert Zeros(2) == "00";
    assert FillNZeros("22", 4) == "0022";
    assert Zeros(5) == "00000";
    assert FillNZeros("7", 6) == "000007";
    assert FillNZeros("1", 2) == "01";
    assert CompositeWellId(Str("22"), Str("7"), Str("1")) == Success("0022" + "000007" + "01");
    assert "0022" + "000007" + "01" == "002200000701";
  }

  /**
   * Because of the unpadded width - 1 case, composite ids are not unique: well
   * 34567 of field "12" and well 234567 of field "001" get the same id.
   */
  lemma CompositeWellIdCollision()
    ensures CompositeWellId(Str("12"), Str("34567"), Str("1"))
         == CompositeWellId(Str("001"), Str("234567"), Str("1"))
  {
    assert Zeros(2) == "00";
    assert FillNZeros("12", 4) == "0012";
    assert FillNZeros("34567", 6) == "34567";
    assert FillNZeros("001", 4) == "001";
    assert FillNZeros("234567", 6) == "234567";
    assert "0" + "1" == "01";
    assert FillNZerosJs(Str("1"), 2) == Success("01");
    assert CompositeWellId(Str("12"), Str("34567"), Str("1")) == Success("0012" + "34567" + "01");
    assert CompositeWellId(Str("001"), Str("234567"), Str("1")) == Success("001" + "234567" + "01");
    assert "0012" + "34567" + "01" == "001" + "234567" + "01";
  }

  /** The surface-point id `"" + wellId + "_" + existence`, which splits back into its two parts. */
  function SurfacePointId(wellId: string, existence: string): (r: string)
    ensures |r| == |wellId| + 1 + |existence|
    ensures r[..|wellId|] == wellId && r[|wellId|] == '_' && r[|wellId| + 1..] == existence
  {
    wellId + "_" + existence
  }
}
