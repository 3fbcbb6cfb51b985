/** The pieces of JavaScript value semantics that the catalog handlers and the edit form rely
    on: what a multipart form entry can be, which entries are truthy, how `<=`, `<` and `-`
    coerce them to numbers, `Math.ceil`, the number denoted by `toFixed(2)`, and the ASCII
    character classes used by the regular expressions. */
module JsValues {

  datatype Option<+T> = None | Some(value: T)

  /** A text entry of a multipart form: `formData.get(key)` is `null` when the key was not sent. */
  datatype FormText = NoText | Text(text: string)

  /** A numeric entry. It arrives as text; the model reads that text as the number it denotes.
      `Blank` is the empty string, which is falsy and coerces to 0. `Null` is `null`: a missing
      multipart entry on the server, or a JSON null in a fetched product; it is falsy and
      coerces to 0. `NoNumber` is `undefined`, which coerces to NaN. */
  datatype NumField = NoNumber | Null | Blank | Num(value: real)

  /** An uploaded file: its name, its MIME type (`file.type`) and its bytes. */
  datatype UploadFile = UploadFile(name: string, mimeType: string, bytes: seq<bv8>)

  /** Any entry of a multipart form: missing, a text value, or a file. */
  datatype FormEntry = NoEntry | TextEntry(text: string) | FileEntry(file: UploadFile)

  type Url = string

  /** Object storage: uploads a file under a key prefix and yields its public URL, or `None`
      when the upload throws. The time-stamped object name is the uploader's business. */
  type Uploader = (string, UploadFile) -> Option<Url>

  /** `!!entry` for a text entry: `null` and the empty string are falsy. */
  predicate Truthy(t: FormText) {
    t.Text? && t.text != ""
  }

  /** `!!entry` for a numeric entry: any non-empty text is truthy, even "0". */
  predicate NumTruthy(n: NumField) {
    n.Num?
  }

  /** The number a numeric entry coerces to in `<`, `<=` and `-`: `null` and "" become 0.
      `undefined` becomes NaN; callers that can meet it treat that case first. */
  function ToNumber(n: NumField): real {
    match n
    case NoNumber => 0.0
    case Null => 0.0
    case Blank => 0.0
    case Num(v) => v
  }

  /** `Math.ceil`: the least integer not below x. */
  function Ceil(x: real): (r: int)
    ensures x <= r as real < x + 1.0
  {
    -((-x).Floor)
  }

  /** The number written by `x.toFixed(2)`: the multiple of 1/100 nearest to x, ties away from
      zero (toFixed rounds the magnitude and then puts the sign back). */
  function ToFixed2(x: real): (r: real)
    ensures -0.005 <= r - x <= 0.005
    // at an exact half-cent, the neighbour of larger magnitude
    ensures x >= 0.0 ==> -0.005 < r - x
    ensures x < 0.0 ==> r - x < 0.005
    ensures (r * 100.0).Floor as real == r * 100.0
  {
    if x < 0.0 then Negative(x) else NonNegative(x)
  }

  /** A whole number is written unchanged. */
  lemma ToFixed2OfWhole(k: nat)
    ensures ToFixed2(k as real) == k as real
  {
    assert Hundredths(k as real) == 100 * k;
  }

  /** `toFixed(2)` of a non-negative number: round to hundredths, a half upwards. */
  function NonNegative(x: real): (r: real)
    requires x >= 0.0
    ensures -0.005 < r - x <= 0.005
    ensures (r * 100.0).Floor as real == r * 100.0
  {
    var n := Hundredths(x);
    var r := n as real / 100.0;
    assert r * 100.0 == n as real;
    r
  }

  /** `toFixed(2)` of a negative number: the rounded magnitude with the sign put back. */
  function Negative(x: real): (r: real)
    requires x < 0.0
    ensures -0.005 <= r - x < 0.005
    ensures (r * 100.0).Floor as real == r * 100.0
  {
    var k: int := -Hundredths(-x);
    assert x * 100.0 - 0.5 <= k as real < x * 100.0 + 0.5;
    var r := k as real / 100.0;
    assert r * 100.0 == k as real;
    r
  }

  /** The magnitude `toFixed(2)` writes, counted in hundredths: the nearest whole number of
      hundredths, a half rounded up. */
  function Hundredths(x: real): (n: int)
    requires x >= 0.0
    ensures x * 100.0 - 0.5 < n as real <= x * 100.0 + 0.5
  {
    (x * 100.0 + 0.5).Floor
  }

  predicate IsUpper(c: char) { 'A' <= c <= 'Z' }
  predicate IsLower(c: char) { 'a' <= c <= 'z' }
  predicate IsAsciiLetter(c: char) { IsUpper(c) || IsLower(c) }
  predicate IsDigit(c: char) { '0' <= c <= '9' }

  /** The class `\w` of a JavaScript regular expression without the `u` flag: `[A-Za-z0-9_]`. */
  predicate IsWordChar(c: char) { IsAsciiLetter(c) || IsDigit(c) || c == '_' }

  /** `toLowerCase` restricted to ASCII: upper-case letters map to lower case, all else is kept. */
  function LowerAscii(c: char): (d: char)
    ensures !IsUpper(d)
    ensures IsUpper(c) ==> IsLower(d) && d as int == c as int + 32
    ensures !IsUpper(c) ==> d == c
  {
    if IsUpper(c) then (c as int + 32) as char else c
  }

  predicate StartsWith(s: string, prefix: string) {
    |prefix| <= |s| && s[..|prefix|] == prefix
  }
}
