/** Archive paths: percent decoding, dot-segment removal and resolution of src/href.rs. */
module Href {
  import opened Outcomes
  import opened Text

  const MAX_PATH_BYTES := 1024

  datatype Target = Entry(path: string) | Remote(uri: string)

  datatype PathError = EmptyPath | TooLong | Absolute | Traversal | IllegalByte(c: char)

  // ----- Percent decoding -----

  function HexDigit(c: char): Option<nat> {
    if IsDigit(c) then Some((c - '0') as nat)
    else if 'a' <= c <= 'f' then Some((c - 'a') as nat + 10)
    else if 'A' <= c <= 'F' then Some((c - 'A') as nat + 10)
    else None
  }

  /** Two characters read in base 16, as the standard library reads them: a leading `+` is allowed. */
  function HexPair(a: char, b: char): Option<nat> {
    match HexDigit(b)
    case None => None
    case Some(low) =>
      if a == '+' then Some(low)
      else
        match HexDigit(a)
        case None => None
        case Some(high) => Some(high * 16 + low)
  }

  /** The bytes of a text with its escapes decoded; a byte is a character below 256. */
  function Unescape(input: string): string {
    if input == "" then ""
    else if input[0] == '%' && |input| > 2 && HexPair(input[1], input[2]).Some? then
      [ByteOf(HexPair(input[1], input[2]).value)] + Unescape(input[3..])
    else [input[0]] + Unescape(input[1..])
  }

  function ByteOf(n: nat): char {
    if n < 256 then n as char else '\0'
  }

  /** The decoded text; `lossy` reads decoded bytes as text. */
  function PercentDecoded(input: string, lossy: string -> string): string {
    if '%' !in input then input else lossy(Unescape(input))
  }

  lemma UnescapeAt(input: string, i: nat)
    requires i < |input|
    ensures Unescape(input[i..]) ==
            if input[i] == '%' && i + 2 < |input| && HexPair(input[i + 1], input[i + 2]).Some? then
              [ByteOf(HexPair(input[i + 1], input[i + 2]).value)] + Unescape(input[i + 3..])
            else [input[i]] + Unescape(input[i + 1..])
  {
    assert input[i..][1..] == input[i + 1..];
    if i + 2 < |input| { assert input[i..][3..] == input[i + 3..]; }
  }

  lemma Appended(out: string, c: char, rest: string)
    ensures out + ([c] + rest) == (out + [c]) + rest
  {
  }

  method PercentDecode(input: string, lossy: string -> string) returns (r: string)
    ensures r == PercentDecoded(input, lossy)
  {
    if '%' !in input {
      return input;
    }
    var out, i := "", 0;
    assert input[0..] == input;
    while i < |input|
      invariant i <= |input| && Unescape(input) == out + Unescape(input[i..])
    {
      UnescapeAt(input, i);
      if input[i] == '%' && i + 2 < |input| {
        var hex := HexPair(input[i + 1], input[i + 2]);
        if hex.Some? {
          Appended(out, ByteOf(hex.value), Unescape(input[i + 3..]));
          out := out + [ByteOf(hex.value)];
          i := i + 3;
          continue;
        }
      }
      Appended(out, input[i], Unescape(input[i + 1..]));
      out := out + [input[i]];
      i := i + 1;
    }
    assert input[i..] == "" && out + "" == out;
    return lossy(out);
  }

  /** A hex digit, in the case that is asked for. */
  function HexChar(d: nat, a: char): (c: char)
    requires d < 16 && a in {'a', 'A'}
    ensures HexDigit(c) == Some(d) && c != '+'
  {
    if d < 10 then '0' + d as char else a + (d - 10) as char
  }

  /** An escaped text: characters of `plain` as they are, all others, and every `%`, as `%XX`, the digits from `a` or `A` on. */
  function Escape(bytes: string, plain: set<char>, a: char): string
    requires a in {'a', 'A'}
    requires forall k :: 0 <= k < |bytes| ==> bytes[k] as int < 256
  {
    if bytes == "" then ""
    else
      var code := bytes[0] as int;
      (if bytes[0] in plain && bytes[0] != '%' then [bytes[0]] else ['%', HexChar(code / 16, a), HexChar(code % 16, a)])
      + Escape(bytes[1..], plain, a)
  }

  /** Decoding undoes every way of escaping. */
  lemma {:induction false} UnescapeEscape(bytes: string, plain: set<char>, a: char)
    requires a in {'a', 'A'} && forall k :: 0 <= k < |bytes| ==> bytes[k] as int < 256
    ensures Unescape(Escape(bytes, plain, a)) == bytes
  {
    if bytes != "" {
      UnescapeEscape(bytes[1..], plain, a);
      var code, rest := bytes[0] as int, Escape(bytes[1..], plain, a);
      if bytes[0] in plain && bytes[0] != '%' {
        assert ([bytes[0]] + rest)[1..] == rest;
      } else {
        var escaped := ['%', HexChar(code / 16, a), HexChar(code % 16, a)];
        assert (escaped + rest)[3..] == rest;
        assert HexPair(escaped[1], escaped[2]) == Some(code);
      }
      assert [bytes[0]] + bytes[1..] == bytes;
    }
  }

  // ----- Escapes proper -----

  /** The bytes of a text in which only `%` and two hex digits are an escape, and every other `%` is left alone. */
  function Strict(input: string): string {
    if input == "" then ""
    else if IsEscape(input) then [ByteOf(HexPair(input[1], input[2]).value)] + Strict(input[3..])
    else [input[0]] + Strict(input[1..])
  }

  predicate IsEscape(input: string) {
    |input| > 2 && input[0] == '%' && HexDigit(input[1]).Some? && HexDigit(input[2]).Some?
  }

  /** Where a sign stands for the first digit: `%+` and one hex digit. */
  predicate SignedAt(input: string, k: nat) {
    k + 2 < |input| && input[k] == '%' && input[k + 1] == '+' && HexDigit(input[k + 2]).Some?
  }

  /** How many signs in `input` stand for a first digit. */
  function Signs(input: string): nat {
    if input == "" then 0 else (if SignedAt(input, 0) then 1 else 0) + Signs(input[1..])
  }

  lemma {:induction false} NoSigns(input: string)
    ensures Signs(input) == 0 <==> forall k: nat :: !SignedAt(input, k)
  {
    if input != "" {
      NoSigns(input[1..]);
      forall k: nat ensures SignedAt(input, k + 1) <==> SignedAt(input[1..], k) {
      }
      if Signs(input) == 0 {
        forall k: nat ensures !SignedAt(input, k) {
          assert k == 0 || SignedAt(input, (k - 1) + 1) == SignedAt(input[1..], k - 1);
        }
      } else if !SignedAt(input, 0) {
        var k: nat :| SignedAt(input[1..], k);
        assert SignedAt(input, k + 1);
      }
    }
  }

  /** An escape is no place for a sign: neither of its digits is `%`. */
  lemma SignsAfterEscape(input: string)
    requires IsEscape(input)
    ensures Signs(input) == Signs(input[3..])
  {
    assert input[1..][1..] == input[2..] && input[2..][1..] == input[3..];
    assert Signs(input[1..]) == Signs(input[2..]) && Signs(input[2..]) == Signs(input[3..]);
  }

  lemma SignedHead(input: string)
    requires SignedAt(input, 0)
    ensures Unescape(input) == [ByteOf(HexDigit(input[2]).value)] + Unescape(input[3..])
    ensures Strict(input) == input[..3] + Strict(input[3..])
    ensures Signs(input) == 1 + Signs(input[3..])
  {
    assert input[1..][1..] == input[2..] && input[2..][1..] == input[3..];
    assert Strict(input[1..]) == [input[1]] + Strict(input[2..]);
    assert Strict(input[2..]) == [input[2]] + Strict(input[3..]);
    assert Signs(input[1..]) == Signs(input[2..]) && Signs(input[2..]) == Signs(input[3..]);
  }

  /** Each sign that stands for a digit costs the decoded text two characters; without one, nothing differs. */
  lemma {:induction false} SignsShorten(input: string)
    ensures |Unescape(input)| + 2 * Signs(input) == |Strict(input)|
    ensures Signs(input) == 0 ==> Unescape(input) == Strict(input)
    decreases |input|
  {
    if input != "" {
      if SignedAt(input, 0) {
        SignedHead(input);
        SignsShorten(input[3..]);
      } else if IsEscape(input) {
        SignsAfterEscape(input);
        SignsShorten(input[3..]);
      } else {
        SignsShorten(input[1..]);
      }
    }
  }

  /** Invalid escapes are left alone exactly in texts in which no `%+` stands before a hex digit; elsewhere text is lost. */
  lemma InvalidEscapesAreKeptExactlyWhen(input: string)
    ensures Unescape(input) == Strict(input) <==> forall k: nat :: !SignedAt(input, k)
    ensures Unescape(input) != Strict(input) ==> |Unescape(input)| < |Strict(input)|
  {
    SignsShorten(input);
    NoSigns(input);
  }

  /** What is made of such a sign: the byte that the one digit after it spells. */
  lemma SignIsDecoded(low: char)
    requires HexDigit(low).Some?
    ensures Unescape(['%', '+', low]) == [HexDigit(low).value as char] && Strict(['%', '+', low]) == ['%', '+', low]
  {
    SignedHead(['%', '+', low]);
    assert ['%', '+', low][3..] == "" && ['%', '+', low][..3] == ['%', '+', low];
  }

  // ----- Dot segments -----

  function ParentDir(path: string): string {
    match LastOf(path, {'/'})
    case None => ""
    case Some(index) => path[..index]
  }

  function ForwardSlashes(path: string): (r: string)
    ensures |r| == |path| && '\\' !in r
    ensures forall k :: 0 <= k < |path| ==> r[k] == if path[k] == '\\' then '/' else path[k]
  {
    if path == "" then "" else [if path[0] == '\\' then '/' else path[0]] + ForwardSlashes(path[1..])
  }

  function BaseSegments(baseDir: string): seq<string> {
    if baseDir == "" then [] else Split(baseDir, '/')
  }

  /** A segment that names something. */
  predicate Ordinary(segment: string) {
    segment != "" && segment != "." && segment != ".."
  }

  /** The stack of segments after walking `segments`, or nothing once it has been popped empty. */
  function Walk(stack: seq<string>, segments: seq<string>): Option<seq<string>> {
    if segments == [] then Some(stack)
    else
      match Walk(stack, segments[..|segments| - 1])
      case None => None
      case Some(before) => WalkOne(before, segments[|segments| - 1])
  }

  function WalkOne(stack: seq<string>, segment: string): Option<seq<string>> {
    if segment == "" || segment == "." then Some(stack)
    else if segment == ".." then if stack == [] then None else Some(stack[..|stack| - 1])
    else Some(stack + [segment])
  }

  /** What normalizing a decoded path against a directory comes to. */
  function Normalized(baseDir: string, path: string): Result<string, PathError> {
    if path == "" then Err(EmptyPath)
    else if |path| + |baseDir| + 1 > MAX_PATH_BYTES then Err(TooLong)
    else if '\0' in path then Err(IllegalByte('\0'))
    else if ForwardSlashes(path)[0] == '/' then Err(Absolute)
    else
      match Walk(BaseSegments(baseDir), Split(ForwardSlashes(path), '/'))
      case None => Err(Traversal)
      case Some(segments) => if segments == [] then Err(EmptyPath) else Ok(Join(segments, '/'))
  }

  lemma {:induction false} WalkStopsForGood(stack: seq<string>, segments: seq<string>, k: nat)
    requires k <= |segments| && Walk(stack, segments[..k]).None?
    ensures Walk(stack, segments).None?
    decreases |segments|
  {
    if k < |segments| {
      var front := segments[..|segments| - 1];
      assert front[..k] == segments[..k];
      WalkStopsForGood(stack, front, k);
    } else {
      assert segments[..k] == segments;
    }
  }

  lemma WalkNext(stack: seq<string>, segments: seq<string>, i: nat)
    requires i < |segments|
    ensures Walk(stack, segments[..i + 1])
            == match Walk(stack, segments[..i]) case None => None case Some(before) => WalkOne(before, segments[i])
  {
    assert segments[..i + 1][..i] == segments[..i];
  }

  method Normalize(baseDir: string, path: string) returns (r: Result<string, PathError>)
    ensures r == Normalized(baseDir, path)
  {
    if path == "" {
      return Err(EmptyPath);
    }
    if |path| + |baseDir| + 1 > MAX_PATH_BYTES {
      return Err(TooLong);
    }
    if '\0' in path {
      return Err(IllegalByte('\0'));
    }
    var slashed := ForwardSlashes(path);
    if slashed[0] == '/' {
      return Err(Absolute);
    }
    var stack := BaseSegments(baseDir);
    var segments := Split(slashed, '/');
    var i := 0;
    while i < |segments|
      invariant i <= |segments|
      invariant Walk(BaseSegments(baseDir), segments[..i]) == Some(stack)
    {
      WalkNext(BaseSegments(baseDir), segments, i);
      var segment := segments[i];
      if segment == "" || segment == "." {
      } else if segment == ".." {
        if stack == [] {
          WalkStopsForGood(BaseSegments(baseDir), segments, i + 1);
          return Err(Traversal);
        }
        stack := stack[..|stack| - 1];
      } else {
        stack := stack + [segment];
      }
      i := i + 1;
    }
    assert segments[..i] == segments;
    if stack == [] {
      return Err(EmptyPath);
    }
    return Ok(Join(stack, '/'));
  }

  // ----- Resolution -----

  predicate IsSchemeChar(c: char) {
    'a' <= c <= 'z' || 'A' <= c <= 'Z' || IsDigit(c) || c in {'+', '-', '.'}
  }

  predicate IsAbsoluteUri(href: string) {
    match FirstOf(href, {':'})
    case None => false
    case Some(colon) =>
      && colon >= 2
      && ('a' <= href[0] <= 'z' || 'A' <= href[0] <= 'Z')
      && forall k :: 0 <= k < colon ==> IsSchemeChar(href[k])
  }

  function Resolve(baseDir: string, href: string, lossy: string -> string): Result<Target, PathError> {
    if |href| > MAX_PATH_BYTES then Err(TooLong)
    else if IsAbsoluteUri(href) then Ok(Remote(href))
    else
      match Normalized(baseDir, PercentDecoded(Split(href, '#')[0], lossy))
      case Ok(path) => Ok(Entry(path))
      case Err(error) => Err(error)
  }

  /** An entry name in normalized form, or nothing for a directory entry. */
  function CheckEntryName(name: string): Result<Option<string>, PathError> {
    match Normalized("", name)
    case Err(error) => Err(error)
    case Ok(path) => if name != "" && name[|name| - 1] in {'/', '\\'} then Ok(None) else Ok(Some(path))
  }
}
