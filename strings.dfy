/**
 * The operations of Python's `str` and `bytes` that the HTTP substrate relies
 * on: searching, `partition`, `split` with and without a separator, `strip`,
 * ASCII case mapping, decimal rendering and UTF-8 encoding.
 */
module Strings {
  import opened Wrappers

  /** An octet. */
  type byte = x: int | 0 <= x < 256

  /** A Python `bytes` value. */
  type Bytes = seq<byte>

  // ---------------------------------------------------------------------------
  // Searching

  /** `pat` occurs in `s` starting at index `i`. */
  predicate OccursAt<T(==)>(s: seq<T>, pat: seq<T>, i: int) {
    0 <= i && i + |pat| <= |s| && s[i..i + |pat|] == pat
  }

  /** The first index at or after `k` where `pat` occurs in `s`. */
  function FindFrom<T(==)>(s: seq<T>, pat: seq<T>, k: nat): Option<nat>
    decreases |s| - k
  {
    if k + |pat| > |s| then None
    else if s[k..k + |pat|] == pat then Some(k)
    else FindFrom(s, pat, k + 1)
  }

  /** The scan from `k` reports an occurrence with none between `k` and it, or says there is none from `k` on. */
  lemma {:induction false} FindFromSpec<T>(s: seq<T>, pat: seq<T>, k: nat)
    ensures var r := FindFrom(s, pat, k);
      (r.Some? ==> k <= r.value && OccursAt(s, pat, r.value))
      && (r.Some? ==> forall j :: k <= j < r.value ==> !OccursAt(s, pat, j))
      && (r.None? ==> forall j :: k <= j ==> !OccursAt(s, pat, j))
    decreases |s| - k
  {
    if k + |pat| <= |s| && s[k..k + |pat|] != pat {
      FindFromSpec(s, pat, k + 1);
    }
  }

  /** `s.find(pat)`: the index of the first occurrence, if any. */
  function Find<T(==)>(s: seq<T>, pat: seq<T>): Option<nat> {
    FindFrom(s, pat, 0)
  }

  /** `Find` reports the first occurrence, or that there is none. */
  lemma FindSpec<T>(s: seq<T>, pat: seq<T>)
    ensures var r := Find(s, pat);
      (r.Some? ==> OccursAt(s, pat, r.value))
      && (r.Some? ==> forall j :: 0 <= j < r.value ==> !OccursAt(s, pat, j))
      && (r.None? ==> forall j :: !OccursAt(s, pat, j))
  {
    FindFromSpec(s, pat, 0);
  }

  /** `pat in s`. */
  predicate Contains<T(==)>(s: seq<T>, pat: seq<T>) {
    Find(s, pat).Some?
  }

  /** An occurrence with none before it is the one `Find` reports. */
  lemma FindIs<T>(s: seq<T>, pat: seq<T>, i: nat)
    requires OccursAt(s, pat, i)
    requires forall j :: 0 <= j < i ==> !OccursAt(s, pat, j)
    ensures Find(s, pat) == Some(i)
  {
    FindSpec(s, pat);
  }

  /** An occurrence inside a prefix is an occurrence in the whole sequence. */
  lemma OccursInPrefix<T>(s: seq<T>, pat: seq<T>, n: nat, j: int)
    requires n <= |s| && OccursAt(s[..n], pat, j)
    ensures OccursAt(s, pat, j)
  {
    assert s[..n][j..j + |pat|] == s[j..j + |pat|];
  }

  // ---------------------------------------------------------------------------
  // partition and split

  /**
   * `s.partition(sep)` without its middle element: the part before the first
   * occurrence of `sep` and the part after it, or `(s, [])` when `sep` does
   * not occur.
   */
  function Partition<T(==)>(s: seq<T>, sep: seq<T>): (r: (seq<T>, seq<T>))
    ensures Contains(s, sep) ==> s == r.0 + sep + r.1
    ensures Contains(s, sep) ==> forall j :: 0 <= j < |r.0| ==> !OccursAt(s, sep, j)
    ensures !Contains(s, sep) ==> r == (s, [])
  {
    FindSpec(s, sep);
    match Find(s, sep)
    case None => (s, [])
    case Some(i) =>
      assert s == s[..i] + s[i..i + |sep|] + s[i + |sep|..];
      (s[..i], s[i + |sep|..])
  }

  /**
   * `s.split(sep)` for a non-empty separator: the pieces between successive
   * non-overlapping occurrences of `sep`, scanning from the left.
   */
  function Split<T(==)>(s: seq<T>, sep: seq<T>): (parts: seq<seq<T>>)
    requires |sep| > 0
    ensures |parts| >= 1
    decreases |s|
  {
    FindSpec(s, sep);
    match Find(s, sep)
    case None => [s]
    case Some(i) => [s[..i]] + Split(s[i + |sep|..], sep)
  }

  /** No piece of a split contains the separator. */
  lemma {:induction false} SplitPieces<T>(s: seq<T>, sep: seq<T>)
    requires |sep| > 0
    ensures forall i :: 0 <= i < |Split(s, sep)| ==> !Contains(Split(s, sep)[i], sep)
    decreases |s|
  {
    FindSpec(s, sep);
    match Find(s, sep)
    case None =>
    case Some(i) =>
      var head := s[..i];
      assert !Contains(head, sep) by {
        FindSpec(head, sep);
        if Find(head, sep).Some? {
          OccursInPrefix(s, sep, i, Find(head, sep).value);
        }
      }
      SplitPieces(s[i + |sep|..], sep);
      assert Split(s, sep) == [head] + Split(s[i + |sep|..], sep);
  }

  /** Splitting at a one-element separator leaves that element in no piece. */
  lemma SplitFree<T>(s: seq<T>, c: T)
    ensures forall i :: 0 <= i < |Split(s, [c])| ==> c !in Split(s, [c])[i]
  {
    var parts := Split(s, [c]);
    SplitPieces(s, [c]);
    forall i | 0 <= i < |parts|
      ensures c !in parts[i]
    {
      if c in parts[i] {
        var k :| 0 <= k < |parts[i]| && parts[i][k] == c;
        assert OccursAt(parts[i], [c], k);
        FindSpec(parts[i], [c]);
      }
    }
  }

  /** `sep.join(parts)`. */
  function Join<T>(parts: seq<seq<T>>, sep: seq<T>): seq<T> {
    if |parts| == 0 then []
    else if |parts| == 1 then parts[0]
    else parts[0] + sep + Join(parts[1..], sep)
  }

  /** Joining one more part appends the separator and that part. */
  lemma {:induction false} JoinSnoc<T>(parts: seq<seq<T>>, x: seq<T>, sep: seq<T>)
    requires |parts| >= 1
    ensures Join(parts + [x], sep) == Join(parts, sep) + sep + x
    decreases |parts|
  {
    var all := parts + [x];
    if |parts| == 1 {
      assert all[1..] == [x];
    } else {
      assert all[1..] == parts[1..] + [x];
      JoinSnoc(parts[1..], x, sep);
    }
  }

  lemma AppendAssoc<T>(a: seq<T>, b: seq<T>, c: seq<T>)
    ensures a + (b + c) == (a + b) + c
  {
  }

  /** Putting text in front of a join is putting it in front of the first part. */
  lemma JoinPrefixFirst<T>(x: seq<T>, parts: seq<seq<T>>, sep: seq<T>)
    requires |parts| >= 1
    ensures x + Join(parts, sep) == Join([x + parts[0]] + parts[1..], sep)
  {
    var t := [x + parts[0]] + parts[1..];
    assert t[0] == x + parts[0] && t[1..] == parts[1..];
    if |parts| > 1 {
      var rest := Join(parts[1..], sep);
      assert Join(parts, sep) == parts[0] + sep + rest;
      assert Join(t, sep) == (x + parts[0]) + sep + rest;
      AppendAssoc(x, parts[0] + sep, rest);
      AppendAssoc(x, parts[0], sep);
    }
  }

  /** Joining the pieces of a split with the same separator gives back the input. */
  lemma {:induction false} JoinSplit<T>(s: seq<T>, sep: seq<T>)
    requires |sep| > 0
    ensures Join(Split(s, sep), sep) == s
    decreases |s|
  {
    FindSpec(s, sep);
    match Find(s, sep)
    case None =>
    case Some(i) =>
      var rest := s[i + |sep|..];
      var parts := Split(rest, sep);
      JoinSplit(rest, sep);
      assert Split(s, sep) == [s[..i]] + parts;
      assert ([s[..i]] + parts)[1..] == parts;
      assert Join([s[..i]] + parts, sep) == s[..i] + sep + rest;
      assert s == s[..i] + s[i..i + |sep|] + rest;
  }

  /**
   * Splitting at a one-element separator inverts joining, when no piece
   * contains the separator.
   */
  lemma {:induction false} SplitJoin<T>(parts: seq<seq<T>>, sep: seq<T>)
    requires |sep| == 1 && |parts| >= 1
    requires forall i :: 0 <= i < |parts| ==> sep[0] !in parts[i]
    ensures Split(Join(parts, sep), sep) == parts
    decreases |parts|
  {
    if |parts| == 1 {
      FindSpec(parts[0], sep);
    } else {
      var p, rest := parts[0], Join(parts[1..], sep);
      var s := p + sep + rest;
      assert Join(parts, sep) == s;
      assert OccursAt(s, sep, |p|) by { assert s[|p|..|p| + 1] == sep; }
      forall j | 0 <= j < |p|
        ensures !OccursAt(s, sep, j)
      {
        assert s[j] == p[j];
      }
      FindIs(s, sep, |p|);
      assert s[..|p|] == p;
      assert s[|p| + 1..] == rest;
      SplitJoin(parts[1..], sep);
    }
  }

  // ---------------------------------------------------------------------------
  // Whitespace: str.isspace, str.strip, str.split()

  /** Python's `str.isspace` for one character. */
  predicate IsSpace(c: char) {
    var n := c as int;
    n == 0x20 || 0x09 <= n <= 0x0D || 0x1C <= n <= 0x1F || n == 0x85 || n == 0xA0
    || n == 0x1680 || 0x2000 <= n <= 0x200A || n == 0x2028 || n == 0x2029
    || n == 0x202F || n == 0x205F || n == 0x3000
  }

  /** `s.lstrip()`. */
  function TrimStart(s: string): (r: string)
    ensures |r| <= |s| && r == s[|s| - |r|..]
    ensures forall i :: 0 <= i < |s| - |r| ==> IsSpace(s[i])
    ensures r == [] || !IsSpace(r[0])
  {
    if s != [] && IsSpace(s[0]) then TrimStart(s[1..]) else s
  }

  /** `s.rstrip()`. */
  function TrimEnd(s: string): (r: string)
    ensures |r| <= |s| && r == s[..|r|]
    ensures forall i :: |r| <= i < |s| ==> IsSpace(s[i])
    ensures r == [] || !IsSpace(r[|r| - 1])
  {
    if s != [] && IsSpace(s[|s| - 1]) then TrimEnd(s[..|s| - 1]) else s
  }

  /** `s.strip()`. */
  function Strip(s: string): string {
    TrimEnd(TrimStart(s))
  }

  /** Stripping text that neither starts nor ends with whitespace, after leading whitespace, leaves the text. */
  lemma {:induction false} StripAfterSpaces(spaces: string, w: string)
    requires forall i :: 0 <= i < |spaces| ==> IsSpace(spaces[i])
    requires w == [] || (!IsSpace(w[0]) && !IsSpace(w[|w| - 1]))
    ensures Strip(spaces + w) == w
    decreases |spaces|
  {
    if spaces == [] {
      assert spaces + w == w;
    } else {
      assert (spaces + w)[1..] == spaces[1..] + w;
      StripAfterSpaces(spaces[1..], w);
    }
  }

  /** The longest prefix of `s` without whitespace. */
  function Word(s: string): (w: string)
    ensures |w| <= |s| && w == s[..|w|]
    ensures forall i :: 0 <= i < |w| ==> !IsSpace(w[i])
    ensures |w| < |s| ==> IsSpace(s[|w|])
  {
    if s == [] || IsSpace(s[0]) then [] else [s[0]] + Word(s[1..])
  }

  /** A non-empty run of characters none of which is whitespace. */
  predicate IsWord(w: string) {
    w != [] && forall k :: 0 <= k < |w| ==> !IsSpace(w[k])
  }

  /** Text that starts with a non-whitespace character starts with a word. */
  lemma WordStartsWord(t: string)
    requires t != [] && !IsSpace(t[0])
    ensures IsWord(Word(t))
  {
  }

  /** `s.split()`: the maximal runs of non-whitespace characters, in order. */
  function Tokens(s: string): (ts: seq<string>)
    ensures forall i :: 0 <= i < |ts| ==> IsWord(ts[i])
    decreases |s|
  {
    var t := TrimStart(s);
    if t == [] then []
    else
      WordStartsWord(t);
      var w := Word(t);
      [w] + Tokens(t[|w|..])
  }

  /** A word followed by whitespace or nothing is what `Word` takes. */
  lemma {:induction false} WordOfPrefix(w: string, rest: string)
    requires forall i :: 0 <= i < |w| ==> !IsSpace(w[i])
    requires rest == [] || IsSpace(rest[0])
    ensures Word(w + rest) == w
    decreases |w|
  {
    if w == [] {
      assert w + rest == rest;
    } else {
      assert (w + rest)[1..] == w[1..] + rest;
      WordOfPrefix(w[1..], rest);
    }
  }

  /** Leading whitespace does not change the tokens. */
  lemma TokensSkipSpace(c: char, s: string)
    requires IsSpace(c)
    ensures Tokens([c] + s) == Tokens(s)
  {
    assert ([c] + s)[1..] == s;
  }

  /** A word followed by whitespace or nothing is the first token. */
  lemma TokensCons(w: string, rest: string)
    requires IsWord(w)
    requires rest == [] || IsSpace(rest[0])
    ensures Tokens(w + rest) == [w] + Tokens(rest)
  {
    var s := w + rest;
    assert s[0] == w[0];
    assert TrimStart(s) == s;
    WordOfPrefix(w, rest);
    assert s[|w|..] == rest;
  }

  /** One more word in front of a join with spaces is one more token in front. */
  lemma TokensOfJoinCons(w: string, tail: seq<string>)
    requires IsWord(w) && |tail| >= 1
    ensures Tokens(Join([w] + tail, " ")) == [w] + Tokens(Join(tail, " "))
  {
    var all := [w] + tail;
    var rest := Join(tail, " ");
    assert all[0] == w && all[1..] == tail;
    assert Join(all, " ") == w + " " + rest;
    AppendAssoc(w, " ", rest);
    TokensCons(w, " " + rest);
    TokensSkipSpace(' ', rest);
  }

  /** A single word is its own only token. */
  lemma TokensOfOneWord(w: string)
    requires IsWord(w)
    ensures Tokens(Join([w], " ")) == [w]
  {
    TokensCons(w, []);
    assert w + [] == w;
  }

  /**
   * `str.split()` inverts `" ".join(words)` for non-empty words without
   * whitespace: the request-line tokenizer reads back exactly the words.
   */
  lemma {:induction false} TokensOfJoin(words: seq<string>)
    requires forall i :: 0 <= i < |words| ==> IsWord(words[i])
    ensures Tokens(Join(words, " ")) == words
    decreases |words|
  {
    if |words| == 1 {
      assert words == [words[0]];
      TokensOfOneWord(words[0]);
    } else if |words| > 1 {
      var w, tail := words[0], words[1..];
      assert words == [w] + tail;
      TailWords(words);
      TokensOfJoin(tail);
      TokensOfJoinCons(w, tail);
    }
  }

  /** The words after the first are words. */
  lemma TailWords(words: seq<string>)
    requires |words| >= 1 && forall i :: 0 <= i < |words| ==> IsWord(words[i])
    ensures forall i :: 0 <= i < |words| - 1 ==> IsWord(words[1..][i])
  {
    forall i | 0 <= i < |words| - 1
      ensures IsWord(words[1..][i])
    {
      assert words[1..][i] == words[i + 1];
    }
  }

  // ---------------------------------------------------------------------------
  // ASCII case mapping

  function LowerChar(c: char): char {
    if 'A' <= c <= 'Z' then (c as int + 32) as char else c
  }

  function UpperChar(c: char): char {
    if 'a' <= c <= 'z' then (c as int - 32) as char else c
  }

  /** `s.lower()` on the ASCII letters. */
  function Lower(s: string): (r: string)
    ensures |r| == |s|
    ensures forall i :: 0 <= i < |s| ==> r[i] == LowerChar(s[i])
  {
    seq(|s|, i requires 0 <= i < |s| => LowerChar(s[i]))
  }

  /** `s.upper()` on the ASCII letters. */
  function Upper(s: string): (r: string)
    ensures |r| == |s|
    ensures forall i :: 0 <= i < |s| ==> r[i] == UpperChar(s[i])
  {
    seq(|s|, i requires 0 <= i < |s| => UpperChar(s[i]))
  }

  /** Text without lower-case ASCII letters is its own upper-case form. */
  lemma UpperOfUpper(s: string)
    requires forall i :: 0 <= i < |s| ==> !('a' <= s[i] <= 'z')
    ensures Upper(s) == s
  {
  }

  // ---------------------------------------------------------------------------
  // Decimal numbers: str(n) and its reading back

  predicate IsDigit(c: char) {
    '0' <= c <= '9'
  }

  function DigitChar(d: nat): char
    requires d < 10
  {
    ('0' as int + d) as char
  }

  /** `str(n)` for a natural number. */
  function NatToString(n: nat): (s: string)
    ensures |s| >= 1
    ensures forall i :: 0 <= i < |s| ==> IsDigit(s[i])
  {
    if n < 10 then [DigitChar(n)] else NatToString(n / 10) + [DigitChar(n % 10)]
  }

  /** `str(i)` for an integer. */
  function IntToString(i: int): string {
    if i < 0 then "-" + NatToString(-i) else NatToString(i)
  }

  /** Reading a non-empty string of decimal digits, as a client reads Content-Length. */
  function ParseNat(s: string): (r: Option<nat>)
    ensures r.Some? ==> s != [] && forall i :: 0 <= i < |s| ==> IsDigit(s[i])
  {
    if s == [] || !IsDigit(s[|s| - 1]) then None
    else
      var d := s[|s| - 1] as int - '0' as int;
      if |s| == 1 then Some(d)
      else match ParseNat(s[..|s| - 1])
        case None => None
        case Some(v) => Some(10 * v + d)
  }

  /** Rendering a number in decimal and reading it back gives the number. */
  lemma {:induction false} ParseNatToString(n: nat)
    ensures ParseNat(NatToString(n)) == Some(n)
  {
    if n >= 10 {
      var s := NatToString(n);
      assert s[..|s| - 1] == NatToString(n / 10);
      ParseNatToString(n / 10);
    }
  }

  /**
   * `int(s)` on the decimal strings `str` produces: digits with an optional
   * leading '-'; `None` for anything else.
   */
  function ParseInt(s: string): (r: Option<int>)
    ensures r.Some? && s != [] && s[0] != '-' ==> r.value >= 0
  {
    if s != [] && s[0] == '-' then
      match ParseNat(s[1..])
      case None => None
      case Some(n) => Some(-(n as int))
    else
      match ParseNat(s)
      case None => None
      case Some(n) => Some(n)
  }

  /** `int(str(i)) == i`. */
  lemma ParseIntToString(i: int)
    ensures ParseInt(IntToString(i)) == Some(i)
  {
    if i < 0 {
      var digits := NatToString(-i);
      var s := "-" + digits;
      assert IntToString(i) == s;
      assert s[0] == '-' && s[1..] == digits;
      ParseNatToString(-i);
    } else {
      var s := NatToString(i);
      assert IntToString(i) == s && IsDigit(s[0]);
      ParseNatToString(i);
    }
  }

  // ---------------------------------------------------------------------------
  // UTF-8 encoding: str.encode("utf-8")

  /** The UTF-8 encoding of one Unicode scalar value. */
  function EncodeChar(c: char): (bs: Bytes)
    ensures 1 <= |bs| <= 4
    ensures |bs| == 1 <==> c as int < 0x80
    ensures |bs| == 1 ==> bs[0] == c as int
    ensures |bs| > 1 ==> forall k :: 0 <= k < |bs| ==> bs[k] >= 0x80
  {
    var n := c as int;
    if n < 0x80 then [n]
    else if n < 0x800 then [0xC0 + n / 0x40, 0x80 + n % 0x40]
    else if n < 0x10000 then [0xE0 + n / 0x1000, 0x80 + (n / 0x40) % 0x40, 0x80 + n % 0x40]
    else [0xF0 + n / 0x40000, 0x80 + (n / 0x1000) % 0x40, 0x80 + (n / 0x40) % 0x40, 0x80 + n % 0x40]
  }

  /** `s.encode("utf-8")`. */
  function Utf8(s: string): (bs: Bytes)
    ensures |s| <= |bs| <= 4 * |s|
  {
    if s == [] then [] else EncodeChar(s[0]) + Utf8(s[1..])
  }

  /** Encoding distributes over concatenation. */
  lemma {:induction false} Utf8Append(a: string, b: string)
    ensures Utf8(a + b) == Utf8(a) + Utf8(b)
    decreases |a|
  {
    if a == [] {
      assert a + b == b;
    } else {
      assert (a + b)[1..] == a[1..] + b;
      Utf8Append(a[1..], b);
    }
  }
}
