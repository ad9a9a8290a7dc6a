/** Which texts the selector parser accepts, what each piece adds, and which error the first bad piece gives. */
module SelectorForms {
  import opened Text
  import opened Seqs
  import opened Selectors

  // ---- the forms of a piece ----

  predicate NotEmpty(s: string) { s != "" }

  /** The non-empty pieces between commas, without the white space around them. */
  function Pieces(text: string): seq<string> {
    Filter(Map(Split(text, ','), Trim), NotEmpty)
  }

  /** Text with its first "=" at place i. */
  predicate EqualsAt(piece: string, i: nat) {
    i < |piece| && piece[i] == '=' && '=' !in piece[..i]
  }

  /** Key and value around the first "=", neither of them blank. */
  ghost predicate IsPair(piece: string, key: string, value: string) {
    key != "" && value != "" && exists i: nat :: EqualsAt(piece, i) && Trims(piece[..i], key) && Trims(piece[i + 1..], value)
  }

  /** A character that a key in front of "exists" may have. */
  predicate InKey(c: char) {
    'a' <= c <= 'z' || 'A' <= c <= 'Z' || '0' <= c <= '9' || c in "./_-"
  }

  /** The word "exists" in any letter case. */
  predicate SpellsExists(w: string) {
    && |w| == 6
    && w[0] in "eE" && w[1] in "xX" && w[2] in "iI" && w[3] in "sS" && w[4] in "tT" && w[5] in "sS"
  }

  /** Key characters, white space and the word. */
  ghost predicate IsExists(piece: string, key: string) {
    exists gap: string, word: string ::
      && piece == key + gap + word && key != "" && gap != ""
      && (forall c <- key :: InKey(c)) && (forall c <- gap :: IsSpace(c)) && SpellsExists(word)
  }

  ghost predicate SomePair(piece: string) {
    exists key, value :: IsPair(piece, key, value)
  }

  ghost predicate SomeExists(piece: string) {
    exists key :: IsExists(piece, key)
  }

  /** The error of a piece of neither form. */
  ghost predicate IsError(piece: string, allowExists: bool, e: Error) {
    match e
    case ExistsRefused(part) => part == piece && !allowExists && SomeExists(piece)
    case NoValue(part) => part == piece && '=' !in piece && !SomeExists(piece)
    case NoKey(part) => part == piece && exists i: nat :: EqualsAt(piece, i) && Trims(piece[..i], "")
    case EmptyValue(key) => key != "" && exists i: nat :: EqualsAt(piece, i) && Trims(piece[..i], key) && Trims(piece[i + 1..], "")
  }

  ghost predicate Accepted(piece: string, allowExists: bool) {
    SomePair(piece) || (allowExists && SomeExists(piece))
  }

  // ---- one piece ----

  lemma KeyCharsAre(c: char)
    ensures IsKeyChar(c) <==> InKey(c)
  {
  }

  lemma SpelledIs(w: string)
    ensures IsExistsWord(w) <==> SpellsExists(w)
  {
  }

  lemma ExistsKeyIs(piece: string, key: string)
    ensures ExistsKey(piece) == Some(key) <==> IsExists(piece, key)
  {
    forall c: char
      ensures IsKeyChar(c) <==> InKey(c)
    {
      KeyCharsAre(c);
    }
    hide InKey, IsKeyChar;
    if ExistsKey(piece) == Some(key) {
      ExistsKeySplits(piece, key);
    }
    if IsExists(piece, key) {
      var gap: string, word: string :|
        && piece == key + gap + word && key != "" && gap != ""
        && (forall c <- key :: InKey(c)) && (forall c <- gap :: IsSpace(c)) && SpellsExists(word);
      ExistsKeyOfParts(piece, key, gap, word);
    }
  }

  lemma ExistsKeySplits(piece: string, key: string)
    requires ExistsKey(piece) == Some(key)
    requires forall c: char :: IsKeyChar(c) <==> InKey(c)
    ensures IsExists(piece, key)
  {
    hide IsKeyChar, IsSpace, IsExistsWord, SpellsExists;
    var n := RunLength(piece, NotKeyChar);
    var rest := piece[n..];
    var m := RunLength(rest, NotSpace);
    var gap, word := rest[..m], rest[m..];
    assert word == piece[n + m..];
    assert piece == key + gap + word;
    assert forall i | 0 <= i < n :: !NotKeyChar(piece[i]);
    assert forall i | 0 <= i < m :: !NotSpace(rest[i]);
    SpelledIs(word);
  }

  lemma ExistsKeyOfParts(piece: string, key: string, gap: string, word: string)
    requires piece == key + gap + word && key != "" && gap != ""
    requires (forall c <- key :: IsKeyChar(c)) && (forall c <- gap :: IsSpace(c)) && SpellsExists(word)
    ensures ExistsKey(piece) == Some(key)
  {
    SpelledIs(word);
    assert gap[0] in gap;
    assert piece == key + (gap + word);
    RunLengthIs(key, gap + word, NotKeyChar);
    assert piece[|key|..] == gap + word;
    RunLengthIs(gap, word, NotSpace);
    assert piece[|key| + |gap|..] == word && piece[..|key|] == key;
  }

  lemma FirstEquals(piece: string, i: nat)
    ensures EqualsAt(piece, i) <==> i == RunLength(piece, IsEquals) < |piece|
  {
    hide RunLength;
    var n := RunLength(piece, IsEquals);
    assert forall j | 0 <= j < n :: !IsEquals(piece[j]);
    assert n < |piece| ==> IsEquals(piece[n]);
    if EqualsAt(piece, i) {
      assert forall j | 0 <= j < i :: piece[j] == piece[..i][j] && piece[j] in piece[..i];
    }
    if i == n < |piece| {
      assert forall j | 0 <= j < n :: piece[..n][j] == piece[j];
    }
  }

  /** What one piece is read as, said without the steps that read it. */
  ghost predicate Reads(piece: string, allowExists: bool, t: Term) {
    match t
    case Pair(key, value) => IsPair(piece, key, value)
    case Key(key) => allowExists && IsExists(piece, key)
    case Bad(e) => IsError(piece, allowExists, e)
  }

  lemma PieceReads(piece: string, allowExists: bool, t: Term)
    ensures ParsePart(piece, allowExists) == t <==> Reads(piece, allowExists, t)
  {
    hide Reads, ParsePart;
    PieceIs(piece, allowExists);
    if Reads(piece, allowExists, t) {
      if '=' in piece {
        ReadsWithEquals(piece, allowExists, t);
      } else {
        ReadsWithoutEquals(piece, allowExists, t);
      }
    }
  }

  lemma PieceIs(piece: string, allowExists: bool)
    ensures Reads(piece, allowExists, ParsePart(piece, allowExists))
  {
    hide Trim, Trims, RunLength, ExistsKey, IsExists, EqualsAt;
    var ex := ExistsKey(piece);
    forall key
      ensures ex == Some(key) <==> IsExists(piece, key)
    {
      ExistsKeyIs(piece, key);
    }
    var i := RunLength(piece, IsEquals);
    if ex.None? {
      if i < |piece| {
        FirstEquals(piece, i);
        TrimIs(piece[..i], Trim(piece[..i]));
        TrimIs(piece[i + 1..], Trim(piece[i + 1..]));
      } else {
        NoEquals(piece);
      }
    }
  }

  lemma NoEquals(piece: string)
    ensures '=' in piece <==> exists i: nat :: EqualsAt(piece, i)
  {
    hide RunLength;
    var n := RunLength(piece, IsEquals);
    FirstEquals(piece, n);
    assert forall j | 0 <= j < n :: !IsEquals(piece[j]);
  }

  lemma NotExists(piece: string)
    requires '=' in piece
    ensures ExistsKey(piece).None? && !SomeExists(piece)
  {
    hide ExistsKey, IsExists;
    if ExistsKey(piece).Some? {
      ExistsKeyShape(piece);
    }
    forall key
      ensures !IsExists(piece, key)
    {
      ExistsKeyIs(piece, key);
    }
  }

  lemma ReadsWithEquals(piece: string, allowExists: bool, t: Term)
    requires Reads(piece, allowExists, t) && '=' in piece
    ensures t == ParsePart(piece, allowExists)
  {
    hide Trims, Trim, RunLength, IsExists, ExistsKey, EqualsAt;
    NotExists(piece);
    NoEquals(piece);
    var i: nat :| EqualsAt(piece, i);
    FirstEquals(piece, i);
    forall j: nat
      ensures EqualsAt(piece, j) ==> j == i
    {
      FirstEquals(piece, j);
    }
    forall s
      ensures Trims(piece[..i], s) <==> Trim(piece[..i]) == s
    {
      TrimIs(piece[..i], s);
    }
    var after := piece[i + 1..];
    forall s
      ensures Trims(after, s) <==> Trim(after) == s
    {
      TrimIs(after, s);
    }
  }

  lemma ReadsWithoutEquals(piece: string, allowExists: bool, t: Term)
    requires Reads(piece, allowExists, t) && '=' !in piece
    ensures t == ParsePart(piece, allowExists)
  {
    hide Trims, Trim, RunLength, IsExists, ExistsKey, EqualsAt;
    forall key
      ensures IsExists(piece, key) <==> ExistsKey(piece) == Some(key)
    {
      ExistsKeyIs(piece, key);
    }
    var n := RunLength(piece, IsEquals);
    NoEquals(piece);
    FirstEquals(piece, n);
  }

  // ---- all pieces ----

  predicate Gives(t: Term, key: string) {
    t.Pair? && t.key == key
  }

  /** The pair is given, and its key not again after that. */
  predicate GivenLast(terms: seq<Term>, p: (string, string)) {
    exists i | 0 <= i < |terms| :: terms[i] == Pair(p.0, p.1) && forall j | i < j < |terms| :: !Gives(terms[j], p.0)
  }

  /** One key is given before another is. */
  predicate GivenBefore(terms: seq<Term>, key: string, other: string) {
    exists i | 0 <= i < |terms| :: Gives(terms[i], key) && forall j | 0 <= j <= i :: !Gives(terms[j], other)
  }

  predicate Given(terms: seq<Term>, key: string) {
    exists i | 0 <= i < |terms| :: Gives(terms[i], key)
  }

  predicate PairsHold(terms: seq<Term>, m: Labels) {
    && DistinctKeys(m)
    && (forall p <- m :: GivenLast(terms, p))
    && (forall i | 0 <= i < |terms| && terms[i].Pair? :: HasKey(m, terms[i].key))
    && (forall i, j | 0 <= i < j < |m| :: GivenBefore(terms, m[i].0, m[j].0))
  }

  predicate HasKey(m: Labels, key: string) {
    exists p <- m :: p.0 == key
  }

  lemma {:induction false} SetIs(m: Labels, key: string, value: string)
    requires DistinctKeys(m)
    ensures var r := Set(m, key, value);
      && |r| == (if HasKey(m, key) then |m| else |m| + 1)
      && (forall i | 0 <= i < |m| :: r[i] == if m[i].0 == key then (key, value) else m[i])
      && (!HasKey(m, key) ==> r[|m|] == (key, value))
  {
    if m != [] {
      if m[0].0 == key {
        assert m[0] in m;
      } else {
        SetIs(m[1..], key, value);
        assert m == [m[0]] + m[1..];
      }
    }
  }

  lemma GivenLastStep(terms: seq<Term>, t: Term, p: (string, string))
    ensures GivenLast(terms + [t], p) <==> t == Pair(p.0, p.1) || (GivenLast(terms, p) && !Gives(t, p.0))
  {
    var more := terms + [t];
    assert more[|terms|] == t && forall i | 0 <= i < |terms| :: more[i] == terms[i];
  }

  lemma GivenBeforeStep(terms: seq<Term>, t: Term, key: string, other: string)
    ensures GivenBefore(terms, key, other) ==> GivenBefore(terms + [t], key, other)
    ensures Given(terms, key) && !Given(terms, other) ==> GivenBefore(terms + [t], key, other)
  {
    var more := terms + [t];
    assert more[|terms|] == t && forall i | 0 <= i < |terms| :: more[i] == terms[i];
  }

  lemma PairsStep(terms: seq<Term>, t: Term, m: Labels)
    requires PairsHold(terms, m) && t.Pair?
    ensures PairsHold(terms + [t], Set(m, t.key, t.value))
  {
    hide GivenLast, GivenBefore, Set;
    var more, r := terms + [t], Set(m, t.key, t.value);
    SetIs(m, t.key, t.value);
    forall i | 0 <= i < |r|
      ensures GivenLast(more, r[i])
    {
      GivenLastStep(terms, t, r[i]);
      assert i < |m| ==> m[i] in m;
    }
    forall i | 0 <= i < |more| && more[i].Pair?
      ensures HasKey(r, more[i].key)
    {
      KeyStays(m, r, t.key, more[i].key);
    }
    forall i, j | 0 <= i < j < |r|
      ensures GivenBefore(more, r[i].0, r[j].0)
    {
      GivenBeforeStep(terms, t, r[i].0, r[j].0);
      if j == |m| {
        assert m[i] in m;
        GivenLastGives(terms, m[i]);
      }
    }
  }

  lemma KeyStays(m: Labels, r: Labels, key: string, k: string)
    requires |m| <= |r| && HasKey(r, key)
    requires forall i | 0 <= i < |m| :: r[i].0 == m[i].0
    requires k == key || HasKey(m, k)
    ensures HasKey(r, k)
  {
    if k != key {
      var i :| 0 <= i < |m| && m[i].0 == k;
      assert r[i] in r;
    }
  }

  lemma GivenLastGives(terms: seq<Term>, p: (string, string))
    requires GivenLast(terms, p)
    ensures Given(terms, p.0)
  {
  }

  /** The requirements are those of the Exists pieces, in their order. */
  ghost predicate KeysHold(terms: seq<Term>, es: seq<Requirement>) {
    var keys := Filter(terms, (t: Term) => t.Key?);
    |es| == |keys| && forall i | 0 <= i < |es| :: keys[i] == Key(es[i].key) && es[i].operator == "Exists"
  }

  lemma KeysStep(terms: seq<Term>, t: Term, es: seq<Requirement>)
    requires KeysHold(terms, es) && !t.Bad?
    ensures KeysHold(terms + [t], if t.Key? then es + [Requirement(t.key, "Exists")] else es)
  {
    hide Filter;
    FilterConcat(terms, [t], (t: Term) => t.Key?);
    FilterStep(t, [], (t: Term) => t.Key?);
    assert [t] + [] == [t];
  }

  ghost predicate FirstBad(terms: seq<Term>, e: Error) {
    exists i | 0 <= i < |terms| :: terms[i] == Bad(e) && forall j | 0 <= j < i :: !terms[j].Bad?
  }

  lemma FirstBadStep(terms: seq<Term>, t: Term, e: Error)
    ensures FirstBad(terms + [t], e) <==> FirstBad(terms, e) || (t == Bad(e) && forall i | 0 <= i < |terms| :: !terms[i].Bad?)
  {
    var more := terms + [t];
    assert more[|terms|] == t && forall i | 0 <= i < |terms| :: more[i] == terms[i];
  }

  lemma {:induction false} AssembledIs(terms: seq<Term>)
    ensures var r := Assemble(terms, EMPTY);
      && (r.Parsed? <==> forall i | 0 <= i < |terms| :: !terms[i].Bad?)
      && (r.Parsed? ==> PairsHold(terms, r.sel.matchLabels) && KeysHold(terms, r.sel.matchExpressions))
      && forall e :: r == Refused(e) <==> FirstBad(terms, e)
  {
    hide PairsHold, KeysHold, FirstBad, Set;
    if terms == [] {
      NoTerms();
    } else {
      var n := |terms| - 1;
      var front, t := terms[..n], terms[n];
      assert terms == front + [t];
      AssembledIs(front);
      AssembleConcat(front, [t], EMPTY);
      var r := Assemble(front, EMPTY);
      forall e
        ensures FirstBad(terms, e) <==> FirstBad(front, e) || (t == Bad(e) && forall i | 0 <= i < n :: !terms[i].Bad?)
      {
        FirstBadStep(front, t, e);
      }
      if r.Parsed? && !t.Bad? {
        AssembleOne(t, r.sel);
        KeysStep(front, t, r.sel.matchExpressions);
        if t.Pair? {
          PairsStep(front, t, r.sel.matchLabels);
        } else {
          PairsOther(front, t, r.sel.matchLabels);
        }
      }
    }
  }

  lemma AssembleOne(t: Term, acc: Selector)
    requires !t.Bad?
    ensures Assemble([t], acc) == Parsed(Add(acc, t))
  {
    assert [t][1..] == [];
  }

  lemma NoTerms()
    ensures PairsHold([], []) && KeysHold([], []) && forall e :: !FirstBad([], e)
  {
  }

  lemma PairsOther(terms: seq<Term>, t: Term, m: Labels)
    requires PairsHold(terms, m) && !t.Pair?
    ensures PairsHold(terms + [t], m)
  {
    hide GivenLast, GivenBefore;
    forall p | p in m
      ensures GivenLast(terms + [t], p)
    {
      GivenLastStep(terms, t, p);
    }
    forall i, j | 0 <= i < j < |m|
      ensures GivenBefore(terms + [t], m[i].0, m[j].0)
    {
      GivenBeforeStep(terms, t, m[i].0, m[j].0);
    }
  }

  // ---- texts ----

  lemma PiecesAre(text: string)
    ensures Parts(text) == Pieces(text)
  {
    TrimAllIs(Split(text, ','));
  }

  lemma {:induction false} TrimAllIs(parts: seq<string>)
    ensures TrimAll(parts) == Filter(Map(parts, Trim), NotEmpty)
  {
    hide Trim;
    if parts != [] {
      TrimAllIs(parts[1..]);
      assert Map(parts, Trim) == [Trim(parts[0])] + Map(parts[1..], Trim);
      FilterStep(Trim(parts[0]), Map(parts[1..], Trim), NotEmpty);
    }
  }

  /** Terms read off pieces, one for one. */
  ghost predicate ReadOff(pieces: seq<string>, allowExists: bool, terms: seq<Term>) {
    |terms| == |pieces| && forall i, t | 0 <= i < |pieces| :: terms[i] == t <==> Reads(pieces[i], allowExists, t)
  }

  lemma TermsRead(text: string, allowExists: bool)
    ensures ReadOff(Pieces(text), allowExists, Terms(Pieces(text), allowExists))
    ensures Parse(text, allowExists) == Assemble(Terms(Pieces(text), allowExists), EMPTY)
  {
    hide Reads, ParsePart, Assemble, Pieces, Parts;
    PiecesAre(text);
    var pieces := Pieces(text);
    forall i, t | 0 <= i < |pieces|
      ensures Terms(pieces, allowExists)[i] == t <==> Reads(pieces[i], allowExists, t)
    {
      PieceReads(pieces[i], allowExists, t);
    }
  }

  /** A text is accepted exactly when every piece is a pair or, where allowed, a key that exists. */
  lemma AcceptedTexts(text: string, allowExists: bool)
    ensures Parse(text, allowExists).Parsed? <==> forall piece <- Pieces(text) :: Accepted(piece, allowExists)
  {
    hide Parse, Pieces, IsPair, IsExists, IsError, Assemble;
    var pieces, terms := Pieces(text), Terms(Pieces(text), allowExists);
    TermsRead(text, allowExists);
    AssembledIs(terms);
    forall i | 0 <= i < |pieces|
      ensures !terms[i].Bad? <==> Accepted(pieces[i], allowExists)
    {
      NotBad(pieces[i], allowExists, terms[i]);
    }
    assert forall i | 0 <= i < |pieces| :: pieces[i] in pieces;
  }

  lemma NotBad(piece: string, allowExists: bool, t: Term)
    requires forall u :: t == u <==> Reads(piece, allowExists, u)
    ensures !t.Bad? <==> Accepted(piece, allowExists)
  {
    hide IsPair, IsExists, IsError;
    assert Reads(piece, allowExists, t);
    if key, value :| IsPair(piece, key, value) {
      assert Reads(piece, allowExists, Pair(key, value));
    }
    if key :| IsExists(piece, key) {
      assert allowExists ==> Reads(piece, allowExists, Key(key));
    }
  }

  /** A text is refused for its first piece that is not accepted, with that piece's error. */
  lemma RefusedTexts(text: string, allowExists: bool, e: Error)
    ensures var pieces := Pieces(text);
      Parse(text, allowExists) == Refused(e)
      <==> exists i | 0 <= i < |pieces| ::
             IsError(pieces[i], allowExists, e) && forall j | 0 <= j < i :: Accepted(pieces[j], allowExists)
  {
    hide Parse, Pieces, IsPair, IsExists, IsError, Assemble, Accepted;
    var pieces, terms := Pieces(text), Terms(Pieces(text), allowExists);
    TermsRead(text, allowExists);
    AssembledIs(terms);
    forall i | 0 <= i < |pieces|
      ensures !terms[i].Bad? <==> Accepted(pieces[i], allowExists)
      ensures terms[i] == Bad(e) <==> IsError(pieces[i], allowExists, e)
    {
      NotBad(pieces[i], allowExists, terms[i]);
      assert terms[i] == Bad(e) <==> Reads(pieces[i], allowExists, Bad(e));
    }
  }

  /** The pair is given, and its key by no later piece. */
  ghost predicate LastPair(pieces: seq<string>, p: (string, string)) {
    exists i | 0 <= i < |pieces| :: IsPair(pieces[i], p.0, p.1) && forall j, value | i < j < |pieces| :: !IsPair(pieces[j], p.0, value)
  }

  /** Some piece gives the key, and none up to it gives the other. */
  ghost predicate FirstPair(pieces: seq<string>, key: string, other: string) {
    exists i, value | 0 <= i < |pieces| ::
      IsPair(pieces[i], key, value) && forall j, w | 0 <= j <= i :: !IsPair(pieces[j], other, w)
  }

  lemma PairOf(piece: string, allowExists: bool, t: Term, key: string)
    requires forall u :: t == u <==> Reads(piece, allowExists, u)
    ensures forall value :: t == Pair(key, value) <==> IsPair(piece, key, value)
    ensures Gives(t, key) <==> exists value :: IsPair(piece, key, value)
  {
    hide IsPair, IsExists, IsError;
    forall value
      ensures t == Pair(key, value) <==> IsPair(piece, key, value)
    {
      assert t == Pair(key, value) <==> Reads(piece, allowExists, Pair(key, value));
    }
    assert Gives(t, key) ==> t == Pair(key, t.value);
  }

  lemma PairsAre(pieces: seq<string>, allowExists: bool, terms: seq<Term>, key: string)
    requires ReadOff(pieces, allowExists, terms)
    ensures forall i, value | 0 <= i < |pieces| :: terms[i] == Pair(key, value) <==> IsPair(pieces[i], key, value)
    ensures forall i | 0 <= i < |pieces| :: Gives(terms[i], key) <==> exists value :: IsPair(pieces[i], key, value)
  {
    hide IsPair, Reads, Gives;
    forall i | 0 <= i < |pieces|
      ensures forall value :: terms[i] == Pair(key, value) <==> IsPair(pieces[i], key, value)
      ensures Gives(terms[i], key) <==> exists value :: IsPair(pieces[i], key, value)
    {
      PairOf(pieces[i], allowExists, terms[i], key);
    }
  }

  lemma GivenLastIs(pieces: seq<string>, allowExists: bool, terms: seq<Term>, p: (string, string))
    requires ReadOff(pieces, allowExists, terms)
    ensures GivenLast(terms, p) <==> LastPair(pieces, p)
  {
    PairsAre(pieces, allowExists, terms, p.0);
    hide IsPair, Reads, Gives;
  }

  lemma GivenBeforeIs(pieces: seq<string>, allowExists: bool, terms: seq<Term>, key: string, other: string)
    requires ReadOff(pieces, allowExists, terms) && GivenBefore(terms, key, other)
    ensures FirstPair(pieces, key, other)
  {
    PairsAre(pieces, allowExists, terms, key);
    PairsAre(pieces, allowExists, terms, other);
    hide IsPair, Reads, Gives;
  }

  lemma MembersAre(terms: seq<Term>, m: Labels, p: (string, string))
    requires PairsHold(terms, m)
    ensures p in m <==> GivenLast(terms, p)
  {
    if GivenLast(terms, p) {
      var i :| 0 <= i < |terms| && terms[i] == Pair(p.0, p.1) && forall j | i < j < |terms| :: !Gives(terms[j], p.0);
      assert HasKey(m, terms[i].key);
      var q :| q in m && q.0 == p.0;
      assert GivenLast(terms, q);
    }
  }

  lemma KeysAre(pieces: seq<string>, allowExists: bool, terms: seq<Term>, es: seq<Requirement>)
    requires ReadOff(pieces, allowExists, terms) && terms == Terms(pieces, allowExists)
    requires KeysHold(terms, es) && forall i | 0 <= i < |terms| :: !terms[i].Bad?
    ensures var found := Filter(pieces, (piece: string) => SomeExists(piece));
      |es| == |found| && forall i | 0 <= i < |found| :: IsExists(found[i], es[i].key) && es[i].operator == "Exists"
  {
    hide Filter, ParsePart, IsPair, IsExists, IsError;
    var read, isKey, isExists := (piece: string) => ParsePart(piece, allowExists), (t: Term) => t.Key?, (piece: string) => SomeExists(piece);
    assert Map(pieces, read) == terms;
    forall i | 0 <= i < |pieces|
      ensures isKey(read(pieces[i])) == isExists(pieces[i])
    {
      KeyOrNot(pieces[i], allowExists, terms[i]);
    }
    FilterImages(pieces, read, isKey, isExists);
    var found := Filter(pieces, isExists);
    forall i | 0 <= i < |found|
      ensures IsExists(found[i], es[i].key)
    {
      PieceReads(found[i], allowExists, Key(es[i].key));
    }
  }

  lemma KeyOrNot(piece: string, allowExists: bool, t: Term)
    requires !t.Bad? && forall u :: t == u <==> Reads(piece, allowExists, u)
    ensures t.Key? <==> SomeExists(piece)
  {
    hide IsPair, IsExists;
    assert Reads(piece, allowExists, t);
    if key :| IsExists(piece, key) {
      assert Reads(piece, allowExists, if allowExists then Key(key) else Bad(ExistsRefused(piece)));
    }
  }

  /**
   * An accepted text selects by the last pair given for each key, keys in the order in which they
   * are first given, and by the keys of its Exists pieces.
   */
  lemma SelectionOf(text: string, allowExists: bool)
    requires Parse(text, allowExists).Parsed?
    ensures var pieces, sel := Pieces(text), Parse(text, allowExists).sel;
      var es := Filter(pieces, (piece: string) => SomeExists(piece));
      && DistinctKeys(sel.matchLabels)
      && (forall p :: p in sel.matchLabels <==> LastPair(pieces, p))
      && (forall i, j | 0 <= i < j < |sel.matchLabels| :: FirstPair(pieces, sel.matchLabels[i].0, sel.matchLabels[j].0))
      && |sel.matchExpressions| == |es|
      && (forall i | 0 <= i < |es| :: IsExists(es[i], sel.matchExpressions[i].key) && sel.matchExpressions[i].operator == "Exists")
  {
    hide *;
    var pieces, sel, terms := Pieces(text), Parse(text, allowExists).sel, Terms(Pieces(text), allowExists);
    TermsRead(text, allowExists);
    AssembledIs(terms);
    KeysAre(pieces, allowExists, terms, sel.matchExpressions);
    PairsHoldMeans(terms, sel.matchLabels);
    forall p
      ensures p in sel.matchLabels <==> LastPair(pieces, p)
    {
      MembersAre(terms, sel.matchLabels, p);
      GivenLastIs(pieces, allowExists, terms, p);
    }
    forall i, j | 0 <= i < j < |sel.matchLabels|
      ensures FirstPair(pieces, sel.matchLabels[i].0, sel.matchLabels[j].0)
    {
      GivenBeforeIs(pieces, allowExists, terms, sel.matchLabels[i].0, sel.matchLabels[j].0);
    }
  }

  lemma PairsHoldMeans(terms: seq<Term>, m: Labels)
    requires PairsHold(terms, m)
    ensures DistinctKeys(m) && forall i, j | 0 <= i < j < |m| :: GivenBefore(terms, m[i].0, m[j].0)
  {
  }
}
