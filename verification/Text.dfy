/** Strings as the console's scripts handle them: trimming, splitting and joining. */
module Text {

  /** A value that may be missing. */
  datatype Option<+T> = None | Some(value: T)

  /** White space and line terminators, as trim() and \s see them in ECMAScript. */
  predicate IsSpace(c: char) {
    || '\t' <= c <= '\r'
    || c == ' ' || c == '\U{A0}' || c == '\U{1680}'
    || '\U{2000}' <= c <= '\U{200A}'
    || c == '\U{2028}' || c == '\U{2029}' || c == '\U{202F}' || c == '\U{205F}'
    || c == '\U{3000}' || c == '\U{FEFF}'
  }

  /** By code point: tab to carriage return, the blanks, the line and paragraph separators and the byte order mark. */
  lemma SpaceIs(c: char)
    ensures IsSpace(c)
      <==> 9 <= c as int <= 13 || 8192 <= c as int <= 8202
           || c as int in {32, 160, 5760, 8232, 8233, 8239, 8287, 12288, 65279}
  {
  }

  predicate IsDigit(c: char) {
    '0' <= c <= '9'
  }

  predicate IsLowerAlnum(c: char) {
    'a' <= c <= 'z' || IsDigit(c)
  }

  /** Every character of s satisfies p. */
  predicate All(s: string, p: char -> bool) {
    forall i | 0 <= i < |s| :: p(s[i])
  }

  /** /^\d+$/ */
  predicate Numeral(s: string) {
    s != "" && All(s, IsDigit)
  }

  /** s.slice(0, n) */
  function Cut(s: string, n: nat): string {
    if |s| <= n then s else s[..n]
  }

  predicate IsDnsChar(c: char) {
    IsLowerAlnum(c) || c == '-'
  }

  /** DNS_LABEL_RE */
  predicate IsDnsLabel(s: string) {
    && s != "" && All(s, IsDnsChar)
    && IsLowerAlnum(s[0]) && IsLowerAlnum(s[|s| - 1])
  }

  /** Lower-case letters, digits and dashes, no dash at either end. */
  lemma DnsLabelIs(s: string)
    ensures IsDnsLabel(s)
      <==> && |s| > 0 && s[0] != '-' && s[|s| - 1] != '-'
           && forall i | 0 <= i < |s| :: 'a' <= s[i] <= 'z' || '0' <= s[i] <= '9' || s[i] == '-'
  {
    assert All(s, IsDnsChar) <==> forall i | 0 <= i < |s| :: IsDnsChar(s[i]);
  }

  predicate EndsWith(s: string, suffix: string) {
    |suffix| <= |s| && s[|s| - |suffix|..] == suffix
  }

  // ---- trim ----

  function TrimStart(s: string): string {
    if s != [] && IsSpace(s[0]) then TrimStart(s[1..]) else s
  }

  function TrimEnd(s: string): string {
    if s != [] && IsSpace(s[|s| - 1]) then TrimEnd(s[..|s| - 1]) else s
  }

  function Trim(s: string): string {
    TrimEnd(TrimStart(s))
  }

  /** No white space at either end. */
  predicate Trimmed(s: string) {
    s != [] ==> !IsSpace(s[0]) && !IsSpace(s[|s| - 1])
  }

  lemma TrimShape(s: string)
    ensures Trimmed(Trim(s))
    ensures forall c <- Trim(s) :: c in s
  {
    TrimStartIs(s);
    TrimEndIs(TrimStart(s));
  }

  lemma TrimTrimmed(s: string)
    requires Trimmed(s)
    ensures Trim(s) == s
  {
  }

  /** t is what s is between the white space at its ends. */
  ghost predicate Trims(s: string, t: string) {
    Trimmed(t) && exists i, j | 0 <= i <= j <= |s| :: t == s[i..j] && All(s[..i], IsSpace) && All(s[j..], IsSpace)
  }

  lemma {:induction false} TrimStartIs(s: string)
    ensures var t := TrimStart(s);
      && |t| <= |s| && t == s[|s| - |t|..] && (t != [] ==> !IsSpace(t[0]))
      && All(s[..|s| - |t|], IsSpace)
  {
    hide IsSpace;
    if s != [] && IsSpace(s[0]) {
      TrimStartIs(s[1..]);
      var n := |s| - |TrimStart(s)|;
      assert forall i | 1 <= i < n :: s[i] == s[1..][..n - 1][i - 1];
    }
  }

  lemma {:induction false} TrimEndIs(s: string)
    ensures var t := TrimEnd(s);
      && |t| <= |s| && t == s[..|t|] && (t != [] ==> !IsSpace(t[|t| - 1]))
      && All(s[|t|..], IsSpace)
  {
    hide IsSpace;
    if s != [] && IsSpace(s[|s| - 1]) {
      var front := s[..|s| - 1];
      TrimEndIs(front);
      var n := |TrimEnd(s)|;
      assert forall i | n <= i < |s| - 1 :: s[i] == front[n..][i - n];
    }
  }

  /** Trimming takes the white space off both ends and nothing else. */
  lemma TrimIs(s: string, t: string)
    ensures Trim(s) == t <==> Trims(s, t)
  {
    hide TrimStart, TrimEnd, IsSpace;
    TrimStartIs(s);
    TrimEndIs(TrimStart(s));
    var r := Trim(s);
    var i := |s| - |TrimStart(s)|;
    assert r == s[i..i + |r|];
    assert s[i + |r|..] == TrimStart(s)[|r|..];
    assert Trims(s, r);
    if Trims(s, t) {
      TrimsOnce(s, r, t);
    }
  }

  predicate Span(s: string, i: nat, j: nat)
    requires i <= j <= |s|
  {
    && (forall x | 0 <= x < i :: IsSpace(s[x])) && (forall x | j <= x < |s| :: IsSpace(s[x]))
    && (i < j ==> !IsSpace(s[i]) && !IsSpace(s[j - 1]))
  }

  lemma SpanOnce(s: string, i: nat, j: nat, k: nat, l: nat)
    requires i <= j <= |s| && k <= l <= |s| && Span(s, i, j) && Span(s, k, l)
    ensures s[i..j] == s[k..l]
  {
    hide IsSpace;
    if i < j || k < l {
      assert i == k && j == l;
    }
  }

  lemma SpanOf(s: string, i: nat, j: nat)
    requires i <= j <= |s| && All(s[..i], IsSpace) && All(s[j..], IsSpace) && Trimmed(s[i..j])
    ensures Span(s, i, j)
  {
    hide IsSpace;
    forall x | j <= x < |s|
      ensures IsSpace(s[x])
    {
      assert s[x] == s[j..][x - j];
    }
  }

  lemma TrimsOnce(s: string, r: string, t: string)
    requires Trims(s, r) && Trims(s, t)
    ensures r == t
  {
    hide IsSpace, All, Trimmed, Span;
    var i, j :| 0 <= i <= j <= |s| && r == s[i..j] && All(s[..i], IsSpace) && All(s[j..], IsSpace);
    var k, l :| 0 <= k <= l <= |s| && t == s[k..l] && All(s[..k], IsSpace) && All(s[l..], IsSpace);
    SpanOf(s, i, j);
    SpanOf(s, k, l);
    SpanOnce(s, i, j, k, l);
  }

  lemma TrimPrefixSpace(s: string)
    ensures Trim(" " + s) == Trim(s)
  {
    assert (" " + s)[1..] == s;
  }

  // ---- split and join ----

  /** s.split(sep) for a separator of one character. */
  function Split(s: string, sep: char): (parts: seq<string>)
    ensures parts != []
  {
    if s == [] then [""]
    else
      var rest := Split(s[1..], sep);
      if s[0] == sep then [""] + rest else [[s[0]] + rest[0]] + rest[1..]
  }

  function Join(parts: seq<string>, sep: string): string {
    if parts == [] then ""
    else if |parts| == 1 then parts[0]
    else parts[0] + sep + Join(parts[1..], sep)
  }

  lemma JoinSteps(parts: seq<string>, sep: string)
    ensures Join(parts, sep)
      == if parts == [] then ""
         else if |parts| == 1 then parts[0]
         else parts[0] + sep + Join(parts[1..], sep)
  {
  }

  lemma {:induction false} SplitWhole(s: string, sep: char)
    requires sep !in s
    ensures Split(s, sep) == [s]
  {
    if s != [] {
      assert s[0] in s && s == [s[0]] + s[1..];
      SplitWhole(s[1..], sep);
    }
  }

  lemma Associative<T>(a: seq<T>, b: seq<T>, c: seq<T>)
    ensures a + (b + c) == (a + b) + c
  {
  }

  lemma TailConcat<T>(a: seq<T>, b: seq<T>)
    requires a != []
    ensures (a + b)[0] == a[0] && (a + b)[1..] == a[1..] + b
  {
  }

  lemma SplitStep(c: char, s: string, sep: char)
    ensures var rest := Split(s, sep);
      Split([c] + s, sep) == if c == sep then [""] + rest else [[c] + rest[0]] + rest[1..]
  {
    assert ([c] + s)[1..] == s;
  }

  lemma {:induction false} SplitConcat(a: string, b: string, sep: char)
    ensures Split(a + [sep] + b, sep) == Split(a, sep) + Split(b, sep)
  {
    hide *;
    if a == [] {
      assert a + [sep] + b == [sep] + b;
      SplitStep(sep, b, sep);
      SplitWhole(a, sep);
    } else {
      SplitConcat(a[1..], b, sep);
      assert a + [sep] + b == [a[0]] + (a[1..] + [sep] + b) && a == [a[0]] + a[1..];
      SplitStep(a[0], a[1..] + [sep] + b, sep);
      SplitStep(a[0], a[1..], sep);
      TailConcat(Split(a[1..], sep), Split(b, sep));
      var first := if a[0] == sep then [""] else [[a[0]] + Split(a[1..], sep)[0]];
      var rest := if a[0] == sep then Split(a[1..], sep) else Split(a[1..], sep)[1..];
      Associative(first, rest, Split(b, sep));
    }
  }

  /** Splitting on a character that no part holds undoes joining on it. */
  lemma {:induction false} SplitJoin(parts: seq<string>, sep: char)
    requires parts != []
    requires forall p <- parts :: sep !in p
    ensures Split(Join(parts, [sep]), sep) == parts
  {
    SplitWhole(parts[0], sep);
    if |parts| > 1 {
      SplitJoin(parts[1..], sep);
      SplitConcat(parts[0], Join(parts[1..], [sep]), sep);
      assert parts == [parts[0]] + parts[1..];
    }
  }

  lemma {:induction false} JoinSplit(s: string, sep: char)
    ensures Join(Split(s, sep), [sep]) == s
    ensures forall p <- Split(s, sep) :: sep !in p
  {
    if s != [] {
      JoinSplit(s[1..], sep);
      var rest := Split(s[1..], sep);
      if s[0] == sep {
        assert ([""] + rest)[1..] == rest;
        assert s == [sep] + s[1..];
      } else {
        var parts := [[s[0]] + rest[0]] + rest[1..];
        assert parts[1..] == rest[1..];
        assert s == [s[0]] + s[1..];
        if |rest| > 1 {
          assert Join(parts, [sep]) == [s[0]] + (rest[0] + [sep] + Join(rest[1..], [sep]));
        }
      }
    }
  }

  // ---- fields: maximal runs between separators, as split(/[...]+/).filter(Boolean) ----

  function RunLength(s: string, sep: char -> bool): (n: nat)
    ensures n <= |s|
    ensures forall i | 0 <= i < n :: !sep(s[i])
    ensures n < |s| ==> sep(s[n])
  {
    if s == [] || sep(s[0]) then 0 else 1 + RunLength(s[1..], sep)
  }

  function Fields(s: string, sep: char -> bool): seq<string>
    decreases |s|
  {
    if s == [] then []
    else if sep(s[0]) then Fields(s[1..], sep)
    else
      var n := RunLength(s, sep);
      [s[..n]] + Fields(s[n..], sep)
  }

  /** A non-empty string without a separator. */
  predicate IsField(s: string, sep: char -> bool) {
    s != [] && forall c <- s :: !sep(c)
  }

  lemma {:induction false} FieldsAreFields(s: string, sep: char -> bool)
    ensures forall f <- Fields(s, sep) :: IsField(f, sep)
    decreases |s|
  {
    if s != [] {
      if sep(s[0]) {
        FieldsAreFields(s[1..], sep);
      } else {
        FieldsAreFields(s[RunLength(s, sep)..], sep);
      }
    }
  }

  lemma RunLengthIs(a: string, b: string, sep: char -> bool)
    requires forall c <- a :: !sep(c)
    requires b == [] || sep(b[0])
    ensures RunLength(a + b, sep) == |a|
  {
    assert forall i | 0 <= i < |a| :: (a + b)[i] == a[i] && !sep(a[i]);
    assert b != [] ==> sep((a + b)[|a|]);
  }

  lemma {:induction false} FieldsOfOnly(s: string, sep: char -> bool)
    requires forall c <- s :: sep(c)
    ensures Fields(s, sep) == []
  {
    if s != [] {
      FieldsOfOnly(s[1..], sep);
    }
  }

  lemma {:induction false} FieldsDropSeparators(gap: string, b: string, sep: char -> bool)
    requires forall c <- gap :: sep(c)
    ensures Fields(gap + b, sep) == Fields(b, sep)
  {
    if gap == [] {
      assert gap + b == b;
    } else {
      FieldsDropSeparators(gap[1..], b, sep);
      assert (gap + b)[1..] == gap[1..] + b;
    }
  }

  lemma FieldsCons(w: string, gap: string, b: string, sep: char -> bool)
    requires IsField(w, sep)
    requires gap != [] && forall c <- gap :: sep(c)
    ensures Fields(w + gap + b, sep) == [w] + Fields(b, sep)
  {
    assert w + gap + b == w + (gap + b);
    RunLengthIs(w, gap + b, sep);
    assert (w + gap + b)[..|w|] == w;
    assert (w + gap + b)[|w|..] == gap + b;
    FieldsDropSeparators(gap, b, sep);
  }

  lemma FieldsOne(w: string, sep: char -> bool)
    requires IsField(w, sep)
    ensures Fields(w, sep) == [w]
  {
    RunLengthIs(w, "", sep);
    assert w + "" == w;
    assert w[..|w|] == w && w[|w|..] == "";
  }

  /** Cutting a joined list of fields gives the list back. */
  lemma {:induction false} FieldsJoin(words: seq<string>, gap: string, sep: char -> bool)
    requires forall w <- words :: IsField(w, sep)
    requires gap != [] && forall c <- gap :: sep(c)
    ensures Fields(Join(words, gap), sep) == words
  {
    if |words| == 1 {
      FieldsOne(words[0], sep);
    } else if |words| > 1 {
      FieldsJoin(words[1..], gap, sep);
      FieldsCons(words[0], gap, Join(words[1..], gap), sep);
    }
  }
}
