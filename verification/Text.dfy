/** The few string functions the program relies on. */
module Text {

  /** White space as `strings.TrimSpace` knows it. */
  predicate IsSpace(c: char) {
    || '\t' <= c <= '\r' || c == ' ' || c == '\U{85}' || c == '\U{A0}' || c == '\U{1680}'
    || '\U{2000}' <= c <= '\U{200A}' || c == '\U{2028}' || c == '\U{2029}' || c == '\U{202F}'
    || c == '\U{205F}' || c == '\U{3000}'
  }

  /** The same by code points: tab to carriage return, space, next line and the space separators of Unicode. */
  lemma SpacesAre(c: char)
    ensures IsSpace(c) <==>
            || c as int in {0x20, 0x85, 0xA0, 0x1680, 0x2028, 0x2029, 0x202F, 0x205F, 0x3000}
            || 0x9 <= c as int <= 0xD || 0x2000 <= c as int <= 0x200A
  {
  }

  function TrimLeft(s: string): string {
    if s != "" && IsSpace(s[0]) then TrimLeft(s[1..]) else s
  }

  function TrimRight(s: string): string {
    if s != "" && IsSpace(s[|s| - 1]) then TrimRight(s[..|s| - 1]) else s
  }

  function TrimSpace(s: string): string {
    TrimRight(TrimLeft(s))
  }

  /** `strings.Trim` of double quotes. */
  function TrimQuotes(s: string): string {
    if s != "" && IsQuote(s[0]) then TrimQuotes(s[1..])
    else if s != "" && IsQuote(s[|s| - 1]) then TrimQuotes(s[..|s| - 1])
    else s
  }

  predicate IsQuote(c: char) {
    c == '"'
  }

  /** All before `from` and all from `to` on is to be trimmed, and what is between ends in nothing to trim. */
  ghost predicate TrimsTo(s: string, from: int, to: int, trim: char -> bool) {
    && 0 <= from <= to <= |s|
    && (forall k | 0 <= k < from :: trim(s[k])) && (forall k | to <= k < |s| :: trim(s[k]))
    && (from < to ==> !trim(s[from]) && !trim(s[to - 1]))
  }

  ghost predicate IsTrimmed(s: string, part: string, trim: char -> bool) {
    exists from, to :: TrimsTo(s, from, to, trim) && part == s[from..to]
  }

  /** There is only one way to trim a string. */
  lemma TrimmedOnce(s: string, a: string, b: string, trim: char -> bool)
    requires IsTrimmed(s, a, trim) && IsTrimmed(s, b, trim)
    ensures a == b
  {
    var from, to :| TrimsTo(s, from, to, trim) && a == s[from..to];
    var from', to' :| TrimsTo(s, from', to', trim) && b == s[from'..to'];
    SameEnds(s, from, to, from', to', trim);
  }

  lemma SameEnds(s: string, from: int, to: int, from': int, to': int, trim: char -> bool)
    requires TrimsTo(s, from, to, trim) && TrimsTo(s, from', to', trim)
    ensures (from == from' && to == to') || (from == to && from' == to')
  {
  }

  lemma {:induction false} TrimLeftMeans(s: string) returns (from: nat)
    ensures from <= |s| && TrimLeft(s) == s[from..] && forall k | 0 <= k < from :: IsSpace(s[k])
    ensures from < |s| ==> !IsSpace(s[from])
  {
    from := 0;
    if s != "" && IsSpace(s[0]) {
      var rest := TrimLeftMeans(s[1..]);
      from := rest + 1;
      assert forall k | 0 < k < from :: s[k] == s[1..][k - 1];
    }
  }

  lemma {:induction false} TrimRightMeans(s: string) returns (to: nat)
    ensures to <= |s| && TrimRight(s) == s[..to] && forall k | to <= k < |s| :: IsSpace(s[k])
    ensures to > 0 ==> !IsSpace(s[to - 1])
  {
    to := |s|;
    if s != "" && IsSpace(s[|s| - 1]) {
      to := TrimRightMeans(s[..|s| - 1]);
      assert s[..|s| - 1][..to] == s[..to];
      assert forall k | to <= k < |s| - 1 :: s[k] == s[..|s| - 1][k];
    }
  }

  lemma TrimSpaceMeans(s: string)
    ensures IsTrimmed(s, TrimSpace(s), IsSpace)
  {
    var from := TrimLeftMeans(s);
    var to := TrimRightMeans(TrimLeft(s));
    assert forall k | from <= k < |s| :: s[k] == TrimLeft(s)[k - from];
    assert TrimsTo(s, from, from + to, IsSpace) && TrimSpace(s) == s[from..from + to];
  }

  lemma {:induction false} TrimQuotesMeans(s: string)
    ensures IsTrimmed(s, TrimQuotes(s), IsQuote)
  {
    if s != "" && IsQuote(s[0]) {
      TrimQuotesMeans(s[1..]);
      assert s[1..] == s[1..|s|];
      TrimsMore(s, 1, |s|, TrimQuotes(s), IsQuote);
    } else if s != "" && IsQuote(s[|s| - 1]) {
      TrimQuotesMeans(s[..|s| - 1]);
      assert s[..|s| - 1] == s[0..|s| - 1];
      TrimsMore(s, 0, |s| - 1, TrimQuotes(s), IsQuote);
    } else {
      Untouched(s, IsQuote);
    }
  }

  /** Trimming something off both ends first changes nothing. */
  lemma TrimsMore(s: string, i: nat, j: nat, part: string, trim: char -> bool)
    requires i <= j <= |s| && IsTrimmed(s[i..j], part, trim)
    requires (forall k | 0 <= k < i :: trim(s[k])) && (forall k | j <= k < |s| :: trim(s[k]))
    ensures IsTrimmed(s, part, trim)
  {
    var from, to :| TrimsTo(s[i..j], from, to, trim) && part == s[i..j][from..to];
    TrimsFurtherIn(s, i, j, from, to, trim);
    forall k | 0 <= k < to - from ensures s[i..j][from..to][k] == s[i + from..i + to][k] {
      assert s[i..j][from + k] == s[i + (from + k)];
    }
    assert part == s[i + from..i + to];
  }

  lemma TrimsFurtherIn(s: string, i: nat, j: nat, from: int, to: int, trim: char -> bool)
    requires i <= j <= |s| && TrimsTo(s[i..j], from, to, trim)
    requires (forall k | 0 <= k < i :: trim(s[k])) && (forall k | j <= k < |s| :: trim(s[k]))
    ensures TrimsTo(s, i + from, i + to, trim)
  {
    assert forall k | i <= k < j :: s[k] == s[i..j][k - i];
  }

  lemma Untouched(s: string, trim: char -> bool)
    requires s == "" || (!trim(s[0]) && !trim(s[|s| - 1]))
    ensures IsTrimmed(s, s, trim)
  {
    assert s == s[0..|s|] && TrimsTo(s, 0, |s|, trim);
  }

  lemma TrimmedEnds(s: string, part: string, trim: char -> bool)
    requires IsTrimmed(s, part, trim) && part != ""
    ensures !trim(part[0]) && !trim(part[|part| - 1])
  {
  }

  /** Trimming twice is trimming once. */
  lemma TrimIdempotent(s: string)
    ensures TrimSpace(TrimSpace(s)) == TrimSpace(s)
  {
    TrimSpaceMeans(s);
    if TrimSpace(s) != "" {
      TrimmedEnds(s, TrimSpace(s), IsSpace);
    }
    NoSpaceToTrim(TrimSpace(s));
  }

  lemma NoSpaceToTrim(s: string)
    requires s == "" || (!IsSpace(s[0]) && !IsSpace(s[|s| - 1]))
    ensures TrimSpace(s) == s
  {
    TrimSpaceMeans(s);
    Untouched(s, IsSpace);
    TrimmedOnce(s, TrimSpace(s), s, IsSpace);
  }

  /** Quotes around a string without quotes or spaces are what trimming takes away. */
  lemma QuotesGo(s: string)
    requires forall c | c in s :: !IsQuote(c) && !IsSpace(c)
    ensures TrimQuotes(TrimSpace("\"" + s + "\"")) == s == TrimQuotes(TrimSpace(s))
  {
    var quoted := "\"" + s + "\"";
    NoSpaceToTrim(s);
    NoSpaceToTrim(quoted);
    Untouched(s, IsQuote);
    TrimQuotesMeans(s);
    TrimmedOnce(s, TrimQuotes(s), s, IsQuote);
    assert s == quoted[1..|quoted| - 1];
    TrimsMore(quoted, 1, |quoted| - 1, s, IsQuote);
    TrimQuotesMeans(quoted);
    TrimmedOnce(quoted, TrimQuotes(quoted), s, IsQuote);
  }
}
