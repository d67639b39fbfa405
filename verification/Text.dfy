/** Text primitives shared by the protocol models: whitespace, trimming, and
    splitting at the first occurrence of a delimiter. Text is a sequence of
    Unicode characters. */
module Text {

  datatype Option<+T> = None | Some(value: T)

  datatype Result<+T, +E> = Ok(value: T) | Err(error: E)

  /** The Unicode White_Space property. */
  predicate IsWhitespace(c: char) {
    || '\U{0009}' <= c <= '\U{000D}'
    || c == ' ' || c == '\U{0085}' || c == '\U{00A0}' || c == '\U{1680}'
    || '\U{2000}' <= c <= '\U{200A}'
    || c == '\U{2028}' || c == '\U{2029}' || c == '\U{202F}'
    || c == '\U{205F}' || c == '\U{3000}'
  }

  /** Drops leading whitespace. */
  function TrimStart(s: string): string {
    if s != "" && IsWhitespace(s[0]) then TrimStart(s[1..]) else s
  }

  /** Drops trailing whitespace. */
  function TrimEnd(s: string): string {
    if s != "" && IsWhitespace(s[|s| - 1]) then TrimEnd(s[..|s| - 1]) else s
  }

  lemma {:induction false} TrimStartShape(s: string)
    ensures var r := TrimStart(s);
            && |r| <= |s| && r == s[|s| - |r|..]
            && (s != "" && !IsWhitespace(s[0]) ==> r == s)
            && (r != "" ==> !IsWhitespace(r[0]))
            && (forall i :: 0 <= i < |s| - |r| ==> IsWhitespace(s[i]))
  {
    hide IsWhitespace;
    if s != "" && IsWhitespace(s[0]) {
      var rest, r := s[1..], TrimStart(s);
      TrimStartShape(rest);
      assert rest[|rest| - |r|..] == s[|s| - |r|..];
      forall i | 0 <= i < |s| - |r| ensures IsWhitespace(s[i]) {
        if i > 0 { assert s[i] == rest[i - 1]; }
      }
    }
  }

  lemma {:induction false} TrimEndShape(s: string)
    ensures var r := TrimEnd(s);
            && |r| <= |s| && r == s[..|r|]
            && (s != "" && !IsWhitespace(s[|s| - 1]) ==> r == s)
            && (r != "" ==> !IsWhitespace(r[|r| - 1]))
            && (forall i :: |r| <= i < |s| ==> IsWhitespace(s[i]))
  {
    hide IsWhitespace;
    if s != "" && IsWhitespace(s[|s| - 1]) {
      TrimEndShape(s[..|s| - 1]);
    }
  }

  function Trim(s: string): string {
    TrimEnd(TrimStart(s))
  }

  /** No whitespace at either end. */
  predicate IsTrimmed(s: string) {
    s == "" || (!IsWhitespace(s[0]) && !IsWhitespace(s[|s| - 1]))
  }

  /** Trimming yields trimmed text, and leaves exactly the trimmed text alone. */
  lemma TrimFixesTrimmed(s: string)
    ensures IsTrimmed(Trim(s))
    ensures Trim(s) == s <==> IsTrimmed(s)
  {
    var t := TrimStart(s);
    TrimStartShape(s);
    TrimEndShape(t);
  }

  /** Only whitespace is trimmed, and only at the ends. */
  lemma TrimTakesWhitespace(before: string, s: string, after: string)
    requires forall i :: 0 <= i < |before| ==> IsWhitespace(before[i])
    requires forall i :: 0 <= i < |after| ==> IsWhitespace(after[i])
    requires s != "" && IsTrimmed(s)
    ensures Trim(before + s + after) == s
  {
    var whole := before + s + after;
    var t := TrimStart(whole);
    TrimStartShape(whole);
    assert whole[|before|] == s[0] && whole[|before| + |s| - 1] == s[|s| - 1];
    assert |t| == |s| + |after|;
    assert t == s + after;
    TrimEndShape(t);
    assert t[|s| - 1] == s[|s| - 1];
  }

  /** The twenty-five whitespace characters, by their code points; six are ASCII. */
  lemma WhitespaceExactly(c: char)
    ensures IsWhitespace(c) <==>
            var n := c as int;
            n in {9, 10, 11, 12, 13, 32, 133, 160, 5760, 8192, 8193, 8194, 8195, 8196, 8197, 8198, 8199, 8200,
                  8201, 8202, 8232, 8233, 8239, 8287, 12288}
  {
  }

  predicate StartsWith(s: string, prefix: string) {
    |prefix| <= |s| && s[..|prefix|] == prefix
  }

  /** `str::split_once`: the parts before and after the first `c`. */
  function SplitOnce(s: string, c: char): Option<(string, string)> {
    if s == "" then None
    else if s[0] == c then Some(("", s[1..]))
    else
      match SplitOnce(s[1..], c)
      case None => None
      case Some((head, tail)) => Some(([s[0]] + head, tail))
  }

  lemma {:induction false} SplitOnceShape(s: string, c: char)
    ensures var r := SplitOnce(s, c);
            if r.Some? then s == r.value.0 + [c] + r.value.1 && c !in r.value.0 && c in s else c !in s
  {
    if s != "" {
      if s[0] == c {
        assert s == "" + [c] + s[1..];
      } else {
        SplitOnceShape(s[1..], c);
        assert s == [s[0]] + s[1..];
      }
    }
  }

  /** A split is determined by its shape. */
  lemma {:induction false} SplitOnceUnique(a: string, b: string, c: char)
    requires c !in a
    ensures SplitOnce(a + [c] + b, c) == Some((a, b))
  {
    var s := a + [c] + b;
    if a == "" {
      assert s == [c] + b;
    } else {
      SplitOnceUnique(a[1..], b, c);
      assert s[1..] == a[1..] + [c] + b;
      assert [a[0]] + a[1..] == a;
    }
  }

  predicate IsCrlfAt(s: string, i: int) {
    0 <= i && i + 1 < |s| && s[i] == '\r' && s[i + 1] == '\n'
  }

  /** The position of the first CRLF. */
  function FindCrlf(s: string): Option<nat> {
    FindCrlfFrom(s, 0)
  }

  function FindCrlfFrom(s: string, from: nat): (r: Option<nat>)
    requires from <= |s|
    ensures r.Some? ==> r.value + 1 < |s|
    decreases |s| - from
  {
    if from == |s| then None
    else if IsCrlfAt(s, from) then Some(from)
    else FindCrlfFrom(s, from + 1)
  }

  /** There is no CRLF before `k`. */
  predicate NoCrlfBefore(s: string, k: nat) {
    forall j :: 0 <= j < k ==> !IsCrlfAt(s, j)
  }

  lemma FindCrlfFirst(s: string)
    ensures match FindCrlf(s)
            case Some(k) => IsCrlfAt(s, k) && NoCrlfBefore(s, k)
            case None => NoCrlfBefore(s, |s|)
  {
    FindCrlfFromFirst(s, 0);
  }

  lemma {:induction false} FindCrlfFromFirst(s: string, from: nat)
    requires from <= |s|
    ensures match FindCrlfFrom(s, from)
            case Some(k) => from <= k && IsCrlfAt(s, k) && forall j :: from <= j < k ==> !IsCrlfAt(s, j)
            case None => forall j :: from <= j < |s| ==> !IsCrlfAt(s, j)
    decreases |s| - from
  {
    if from < |s| && !IsCrlfAt(s, from) {
      FindCrlfFromFirst(s, from + 1);
    }
  }

  lemma FindCrlfUnique(s: string, k: nat)
    requires IsCrlfAt(s, k) && NoCrlfBefore(s, k)
    ensures FindCrlf(s) == Some(k)
  {
    FindCrlfFirst(s);
  }

  const CRLF: string := "\r\n"

  /** The first CRLF of a header without one, closed by CRLF, is that closing one. */
  lemma FindCrlfAfter(header: string, data: string)
    requires NoCrlfBefore(header, |header|)
    requires header == "" || header[|header| - 1] != '\r'
    ensures FindCrlf(header + CRLF + data) == Some(|header|)
  {
    var s := header + CRLF + data;
    forall j | 0 <= j < |header| ensures !IsCrlfAt(s, j) {
      assert !IsCrlfAt(header, j);
      assert s[j] == header[j];
      assert j + 1 < |header| ==> s[j + 1] == header[j + 1];
    }
    FindCrlfUnique(s, |header|);
  }

  /** The number of bytes of a character in UTF-8. */
  function Utf8Width(c: char): nat {
    if c < '\U{0080}' then 1
    else if c < '\U{0800}' then 2
    else if c < '\U{10000}' then 3
    else 4
  }

  function Utf8Length(s: string): nat {
    if s == "" then 0 else Utf8Width(s[0]) + Utf8Length(s[1..])
  }

  lemma {:induction false} WidthBound(s: string)
    ensures Utf8Length(s) <= 4 * |s|
  {
    if s != "" { WidthBound(s[1..]); }
  }

  /** In ASCII text a character is a byte. */
  lemma {:induction false} AsciiLength(s: string)
    requires forall i :: 0 <= i < |s| ==> s[i] < '\U{0080}'
    ensures Utf8Length(s) == |s|
  {
    if s != "" { AsciiLength(s[1..]); }
  }

  /** Where the width of a character steps up. */
  lemma Utf8Steps()
    ensures Utf8Width('\U{007F}') == 1 && Utf8Width('\U{0080}') == 2
    ensures Utf8Width('\U{07FF}') == 2 && Utf8Width('\U{0800}') == 3
    ensures Utf8Width('\U{FFFF}') == 3 && Utf8Width('\U{10000}') == 4
  {
  }
}
