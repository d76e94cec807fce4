/** POSIX path helpers over `/`-separated character sequences, following
    Node's `path` module (`basename`, `extname`, `dirname`, `normalize`,
    `relative`) and `decodeURIComponent`, as far as the generators use them. */
module Paths {
  import opened Strings
  import opened Wrappers

  /** `s.lastIndexOf(c)` */
  function LastIndexOf(s: string, c: char): (i: int)
    ensures -1 <= i < |s|
    ensures 0 <= i ==> s[i] == c && c !in s[i + 1..]
    ensures i == -1 <==> c !in s
  {
    if |s| == 0 then -1
    else if s[|s| - 1] == c then |s| - 1
    else
      var i := LastIndexOf(s[..|s| - 1], c);
      assert s == s[..|s| - 1] + [s[|s| - 1]];
      assert 0 <= i ==> s[i + 1..] == s[..|s| - 1][i + 1..] + [s[|s| - 1]];
      i
  }

  lemma LastIndexOfAfter(a: string, c: char, b: string)
    requires c !in b
    ensures LastIndexOf(a + [c] + b, c) == |a|
  {
    var s := a + [c] + b;
    var i := LastIndexOf(s, c);
    assert s[|a|] == c;
    assert s[|a| + 1..] == b;
  }

  function StripTrailingSlashes(p: string): (q: string)
    ensures |q| <= |p| && q == p[..|q|]
    ensures |q| == 0 || q[|q| - 1] != '/'
  {
    if |p| > 0 && p[|p| - 1] == '/' then StripTrailingSlashes(p[..|p| - 1]) else p
  }

  /** `path.basename(p)`: the last segment, trailing slashes ignored. */
  function Basename(p: string): (b: string)
    ensures '/' !in b
  {
    var q := StripTrailingSlashes(p);
    q[LastIndexOf(q, '/') + 1..]
  }

  /** The basename of `a/f` is `f` when `f` is a plain, non-empty name. */
  lemma BasenameAfterSlash(a: string, f: string)
    requires f != "" && '/' !in f
    ensures Basename(a + "/" + f) == f
  {
    var q := a + "/" + f;
    assert StripTrailingSlashes(q) == q by {
      assert q[|q| - 1] == f[|f| - 1];
    }
    var i := LastIndexOf(q, '/');
    assert q[|a|] == '/';
    assert q[|a| + 1..] == f;
    if i < |a| {
      assert q[i + 1..][|a| - i - 1] == '/';
    }
  }

  /** `path.basename(p, ext)`: the last segment with `ext` cut off its end,
      unless the segment is `ext` itself; a path equal to `ext` gives "". */
  function BasenameExt(p: string, ext: string): string {
    if |ext| > 0 && ext == p then ""
    else
      var b := Basename(p);
      if |ext| > 0 && EndsWith(b, ext) && b != ext then b[..|b| - |ext|] else b
  }

  /** `path.extname(p)`: from the last dot of the last segment, or "" when that
      dot opens the segment (a dot-file) or the segment is `..`. */
  function Extname(p: string): string {
    var b := Basename(p);
    var d := LastIndexOf(b, '.');
    if d <= 0 || b == ".." then "" else b[d..]
  }

  /** The scan of Node's `dirname`: from index `i` down to 1, the first slash
      met after a non-slash character, or -1. */
  function DirEnd(p: string, i: int, matchedSlash: bool): (e: int)
    requires i < |p|
    ensures e == -1 || 1 <= e <= i
    decreases i
  {
    if i < 1 then -1
    else if p[i] == '/' then (if !matchedSlash then i else DirEnd(p, i - 1, true))
    else DirEnd(p, i - 1, false)
  }

  /** `path.dirname(p)` */
  function Dirname(p: string): (d: string)
    ensures |d| >= 1
  {
    if |p| == 0 then "."
    else
      var end := DirEnd(p, |p| - 1, true);
      if end == -1 then (if p[0] == '/' then "/" else ".")
      else if p[0] == '/' && end == 1 then "//"
      else p[..end]
  }

  /** A measure that every proper `dirname` step decreases. */
  function DirMeasure(p: string): nat {
    if p == "" then 3 else if p == "/" || p == "." then 2 else 2 * |p| + 1
  }

  lemma DirnameDecreases(p: string)
    requires Dirname(p) != p
    ensures DirMeasure(Dirname(p)) < DirMeasure(p)
  {
  }

  /** An absolute path has an absolute directory. */
  lemma DirnameAbsolute(p: string)
    requires StartsWith(p, "/")
    ensures StartsWith(Dirname(p), "/")
  {
  }

  /** One segment of Node's `normalizeString`: `.` and empty segments vanish,
      `..` removes the previous segment when there is one to remove. */
  function NormStep(stack: seq<string>, seg: string, allowAboveRoot: bool): seq<string> {
    if seg == "" || seg == "." then stack
    else if seg == ".." then
      if |stack| > 0 && stack[|stack| - 1] != ".." then stack[..|stack| - 1]
      else if allowAboveRoot then stack + [".."]
      else stack
    else stack + [seg]
  }

  function NormSegments(segs: seq<string>, allowAboveRoot: bool): seq<string> {
    if |segs| == 0 then []
    else NormStep(NormSegments(segs[..|segs| - 1], allowAboveRoot), segs[|segs| - 1], allowAboveRoot)
  }

  /** `path.normalize(p)` */
  function Normalize(p: string): (r: string)
    ensures r != ""
    ensures StartsWith(p, "/") ==> StartsWith(r, "/")
  {
    if |p| == 0 then "."
    else
      var absolute := p[0] == '/';
      var trailing := p[|p| - 1] == '/';
      var body := Join(NormSegments(Split(p, '/'), !absolute), "/");
      if body == "" then (if absolute then "/" else if trailing then "./" else ".")
      else (if absolute then "/" else "") + body + (if trailing then "/" else "")
  }

  /** A name without slashes normalises to itself, except that the empty
      name and `.` both become `.`. */
  lemma NormalizePlain(t: string)
    requires '/' !in t
    ensures Normalize(t) == if t == "" || t == "." then "." else t
  {
    if |t| > 0 {
      assert t[|t| - 1] in t && t[0] in t;
      assert Split(t, '/') == [t];
      assert [t][..0] == [];
      assert NormSegments([t], true) == NormStep([], t, true);
      if t == ".." {
        assert NormStep([], t, true) == [".."];
      } else if t != "." {
        assert NormStep([], t, true) == [t];
      }
    }
  }

  /** A character that is neither a slash nor a dot, and that a path lacks,
      is missing from every step of the path's processing as well. */
  lemma {:induction false} SplitAvoids(s: string, c: char, x: char)
    requires x !in s
    ensures forall k | 0 <= k < |Split(s, c)| :: x !in Split(s, c)[k]
    decreases |s|
  {
    var i := IndexOf(s, c);
    if i != -1 {
      assert forall y | y in s[..i] :: y in s;
      assert forall y | y in s[i + 1..] :: y in s;
      SplitAvoids(s[i + 1..], c, x);
    }
  }

  lemma {:induction false} NormSegmentsAvoid(segs: seq<string>, allowAboveRoot: bool, x: char)
    requires x != '.'
    requires forall k | 0 <= k < |segs| :: x !in segs[k]
    ensures forall k | 0 <= k < |NormSegments(segs, allowAboveRoot)| :: x !in NormSegments(segs, allowAboveRoot)[k]
  {
    if |segs| > 0 {
      NormSegmentsAvoid(segs[..|segs| - 1], allowAboveRoot, x);
    }
  }

  lemma NormalizeAvoids(p: string, x: char)
    requires x != '/' && x != '.' && x !in p
    ensures x !in Normalize(p)
  {
    if |p| > 0 {
      SplitAvoids(p, '/', x);
      NormSegmentsAvoid(Split(p, '/'), p[0] != '/', x);
      JoinAvoids(NormSegments(Split(p, '/'), p[0] != '/'), "/", x);
    }
  }

  lemma DirnameAvoids(p: string, x: char)
    requires x != '/' && x != '.' && x !in p
    ensures x !in Dirname(p)
  {
    if |p| > 0 {
      var end := DirEnd(p, |p| - 1, true);
      if end != -1 && !(p[0] == '/' && end == 1) {
        assert forall y | y in p[..end] :: y in p;
      }
    }
  }

  lemma BasenameAvoids(p: string, x: char)
    requires x !in p
    ensures x !in Basename(p)
  {
    var q := StripTrailingSlashes(p);
    assert forall y | y in q :: y in p;
    assert forall y | y in q[LastIndexOf(q, '/') + 1..] :: y in q;
  }

  /** `path.resolve(p)` as segments, with the working directory `cwd` given
      explicitly (it is process state). */
  function Resolve(cwd: string, p: string): seq<string> {
    var joined := if StartsWith(p, "/") then p else cwd + "/" + p;
    NormSegments(Split(joined, '/'), false)
  }

  function CommonPrefixLength(a: seq<string>, b: seq<string>): (k: nat)
    ensures k <= |a| && k <= |b| && a[..k] == b[..k]
    ensures k < |a| && k < |b| ==> a[k] != b[k]
  {
    if |a| == 0 || |b| == 0 || a[0] != b[0] then 0
    else
      var k := CommonPrefixLength(a[1..], b[1..]);
      assert a[..k + 1] == [a[0]] + a[1..][..k];
      assert b[..k + 1] == [b[0]] + b[1..][..k];
      k + 1
  }

  function Repeat(s: string, n: nat): seq<string> {
    if n == 0 then [] else [s] + Repeat(s, n - 1)
  }

  /** `path.relative(from, to)`: up with `..` out of `from` to the common
      ancestor, then down to `to`. */
  function Relative(cwd: string, from: string, to: string): string {
    if from == to then ""
    else
      var f := Resolve(cwd, from);
      var t := Resolve(cwd, to);
      if f == t then ""
      else
        var k := CommonPrefixLength(f, t);
        Join(Repeat("..", |f| - k) + t[k..], "/")
  }

  predicate IsHex(c: char) {
    '0' <= c <= '9' || 'a' <= c <= 'f' || 'A' <= c <= 'F'
  }

  function HexValue(c: char): nat
    requires IsHex(c)
  {
    if '0' <= c <= '9' then c as nat - 48
    else if 'a' <= c <= 'f' then c as nat - 87
    else c as nat - 55
  }

  /** The byte a `%XX` escape at the start of `s` stands for. */
  function EscapedByte(s: string): (b: Option<nat>)
    ensures b.Some? ==> |s| >= 3 && s[0] == '%' && b.value < 256
  {
    if |s| >= 3 && s[0] == '%' && IsHex(s[1]) && IsHex(s[2]) then Some(HexValue(s[1]) * 16 + HexValue(s[2]))
    else None
  }

  /** The length of the UTF-8 sequence a lead byte opens, or 0 for a byte
      that cannot open one (a continuation byte or 0xF8 and above). */
  function SequenceLength(b: nat): (n: nat)
    ensures n <= 4
  {
    if b < 0x80 then 1
    else if 0xC0 <= b < 0xE0 then 2
    else if 0xE0 <= b < 0xF0 then 3
    else if 0xF0 <= b < 0xF8 then 4
    else 0
  }

  /** `k` escaped continuation bytes (`10xxxxxx`) at the start of `s`. */
  function Continuations(s: string, k: nat): (r: Option<seq<nat>>)
    ensures r.Some? ==> |r.value| == k && 3 * k <= |s|
    ensures r.Some? ==> forall i | 0 <= i < k :: 0x80 <= r.value[i] < 0xC0
  {
    if k == 0 then Some([])
    else
      var b := EscapedByte(s);
      if b.None? || !(0x80 <= b.value < 0xC0) then None
      else
        match Continuations(s[3..], k - 1)
        case None => None
        case Some(rest) => Some([b.value] + rest)
  }

  /** The payload bits of the continuation bytes appended to `v`. */
  function Accumulate(v: nat, cont: seq<nat>): nat
    decreases |cont|
  {
    if |cont| == 0 then v else Accumulate(v * 64 + cont[0] % 64, cont[1..])
  }

  /** The code point of a multi-byte sequence of length `n`. */
  function CodePoint(n: nat, lead: nat, cont: seq<nat>): nat {
    var payload := if n == 2 then lead % 0x20 else if n == 3 then lead % 0x10 else lead % 0x08;
    Accumulate(payload, cont)
  }

  /** A decoded sequence is valid when it is not overlong, not a surrogate
      and not above the last code point. */
  predicate ValidScalar(n: nat, cp: nat) {
    cp >= (if n == 2 then 0x80 else if n == 3 then 0x800 else 0x10000)
    && cp <= 0x10FFFF && !(0xD800 <= cp <= 0xDFFF)
  }

  /** `decodeURIComponent(s)`: every `%XX` escape of an ASCII byte becomes that
      character; an escape of a lead byte and the escaped continuation bytes
      after it become the one character they encode in UTF-8. A `%` not
      followed by two hex digits, a stray continuation byte, a short, overlong
      or surrogate sequence is malformed (None). */
  function PercentDecode(s: string): (r: Option<string>)
    ensures r.Some? ==> |r.value| <= |s|
    ensures r.Some? && |s| > 0 ==> |r.value| > 0
    decreases |s|
  {
    if |s| == 0 then Some("")
    else if s[0] != '%' then
      match PercentDecode(s[1..])
      case Some(rest) => Some([s[0]] + rest)
      case None => None
    else
      var b := EscapedByte(s);
      if b.None? then None
      else
        var n := SequenceLength(b.value);
        if n == 0 then None
        else if n == 1 then
          match PercentDecode(s[3..])
          case Some(rest) => Some([b.value as char] + rest)
          case None => None
        else
          match Continuations(s[3..], n - 1)
          case None => None
          case Some(cont) =>
            var cp := CodePoint(n, b.value, cont);
            if !ValidScalar(n, cp) then None
            else
              match PercentDecode(s[3 * n..])
              case Some(rest) => Some([cp as char] + rest)
              case None => None
  }

  /** An escaped two-byte sequence decodes to its character, and an overlong
      encoding of `/` is rejected. */
  lemma PercentDecodeUtf8()
    ensures PercentDecode("%C3%A9") == Some([0xE9 as char])
    ensures PercentDecode("%C0%AF") == None
  {
    var s := "%C3%A9";
    assert EscapedByte(s) == Some(0xC3);
    assert s[3..] == "%A9" && s[6..] == "";
    var c := Continuations(s[3..], 1);
    assert EscapedByte("%A9") == Some(0xA9) && "%A9"[3..] == "";
    assert Continuations("", 0) == Some([]);
    assert c.value == [0xA9];
    assert CodePoint(2, 0xC3, [0xA9]) == 0xE9;
    var r := PercentDecode(s);
    assert r.value == [0xE9 as char];
    var t := "%C0%AF";
    assert EscapedByte(t) == Some(0xC0);
    assert t[3..] == "%AF";
    var d := Continuations(t[3..], 1);
    assert EscapedByte("%AF") == Some(0xAF) && "%AF"[3..] == "";
    assert d.value == [0xAF];
    assert CodePoint(2, 0xC0, [0xAF]) == 0x2F;
  }

  /** Text without `%` decodes to itself. */
  lemma {:induction false} PercentDecodePlain(s: string)
    requires '%' !in s
    ensures PercentDecode(s) == Some(s)
    decreases |s|
  {
    if |s| > 0 {
      assert s[0] in s;
      assert forall x :: x in s[1..] ==> x in s;
      PercentDecodePlain(s[1..]);
      assert s == [s[0]] + s[1..];
    }
  }
}
