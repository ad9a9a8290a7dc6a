/** The selector language of the forms: "k=v, k2=v2, k3 exists". */
module Selectors {
  import opened Text
  import opened Seqs

  /** An object's own string properties, in insertion order. */
  type Labels = seq<(string, string)>

  function Lookup(m: Labels, key: string): Option<string> {
    if m == [] then None
    else if m[0].0 == key then Some(m[0].1)
    else Lookup(m[1..], key)
  }

  /** m[key] = value: an existing key keeps its place. */
  function Set(m: Labels, key: string, value: string): Labels {
    if m == [] then [(key, value)]
    else if m[0].0 == key then [(key, value)] + m[1..]
    else [m[0]] + Set(m[1..], key, value)
  }

  datatype Requirement = Requirement(key: string, operator: string)
  datatype Selector = Selector(matchLabels: Labels, matchExpressions: seq<Requirement>)

  const EMPTY := Selector([], [])

  datatype Error =
    | ExistsRefused(part: string)
    | NoValue(part: string)
    | NoKey(part: string)
    | EmptyValue(key: string)

  /** What parseSelector returns; an error carries no selector. */
  datatype Parsed = Parsed(sel: Selector) | Refused(error: Error) {
    /** The selector its readers see: `matchLabels || {}` of a refused text is empty. */
    function Seen(): Selector {
      if Parsed? then sel else EMPTY
    }
  }

  // ---- parsing ----

  predicate IsKeyChar(c: char) {
    'A' <= c <= 'Z' || 'a' <= c <= 'z' || IsDigit(c) || c == '.' || c == '/' || c == '_' || c == '-'
  }

  predicate NotKeyChar(c: char) { !IsKeyChar(c) }
  predicate NotSpace(c: char) { !IsSpace(c) }
  predicate IsEquals(c: char) { c == '=' }

  /** "exists" in any letter case. */
  predicate IsExistsWord(s: string) {
    |s| == 6 && forall i | 0 <= i < 6 :: s[i] == "exists"[i] || s[i] == "EXISTS"[i]
  }

  /** The key of `<key> exists`, the part being matched as a whole. */
  function ExistsKey(part: string): Option<string> {
    var n := RunLength(part, NotKeyChar);
    var m := RunLength(part[n..], NotSpace);
    if n > 0 && m > 0 && IsExistsWord(part[n + m..]) then Some(part[..n]) else None
  }

  datatype Term = Pair(key: string, value: string) | Key(key: string) | Bad(error: Error)

  function ParsePart(part: string, allowExists: bool): Term {
    match ExistsKey(part)
    case Some(k) => if allowExists then Key(k) else Bad(ExistsRefused(part))
    case None =>
      var i := RunLength(part, IsEquals);
      if i == |part| then Bad(NoValue(part))
      else
        var k, v := Trim(part[..i]), Trim(part[i + 1..]);
        if k == "" then Bad(NoKey(part))
        else if v == "" then Bad(EmptyValue(k))
        else Pair(k, v)
  }

  function TrimAll(parts: seq<string>): seq<string> {
    if parts == [] then []
    else
      var t, rest := Trim(parts[0]), TrimAll(parts[1..]);
      if t == "" then rest else [t] + rest
  }

  /** The non-empty trimmed pieces between commas. */
  function Parts(text: string): seq<string> {
    TrimAll(Split(text, ','))
  }

  function Add(acc: Selector, t: Term): Selector
    requires !t.Bad?
  {
    match t
    case Pair(k, v) => acc.(matchLabels := Set(acc.matchLabels, k, v))
    case Key(k) => acc.(matchExpressions := acc.matchExpressions + [Requirement(k, "Exists")])
  }

  /** The pieces one after the other; the first bad one refuses the text. */
  function Assemble(terms: seq<Term>, acc: Selector): Parsed {
    if terms == [] then Parsed(acc)
    else if terms[0].Bad? then Refused(terms[0].error)
    else Assemble(terms[1..], Add(acc, terms[0]))
  }

  function Terms(parts: seq<string>, allowExists: bool): (r: seq<Term>)
    ensures |r| == |parts| && forall i | 0 <= i < |r| :: r[i] == ParsePart(parts[i], allowExists)
  {
    seq(|parts|, i requires 0 <= i < |parts| => ParsePart(parts[i], allowExists))
  }

  function Parse(text: string, allowExists: bool := true): Parsed {
    Assemble(Terms(Parts(text), allowExists), EMPTY)
  }

  method ParseSelector(text: string, allowExists: bool) returns (r: Parsed)
    ensures r == Parse(text, allowExists)
  {
    var sel := EMPTY;
    var parts := Parts(text);
    ghost var terms := Terms(parts, allowExists);
    for i := 0 to |parts|
      invariant Parse(text, allowExists) == Assemble(terms[i..], sel)
    {
      assert terms[i..][1..] == terms[i + 1..];
      var t := ParsePart(parts[i], allowExists);
      if t.Bad? {
        return Refused(t.error);
      }
      sel := Add(sel, t);
    }
    return Parsed(sel);
  }

  // ---- printing and matching ----

  function PairText(p: (string, string)): string {
    p.0 + "=" + p.1
  }

  function PairTexts(m: Labels): (r: seq<string>)
    ensures |r| == |m| && forall i | 0 <= i < |m| :: r[i] == PairText(m[i])
  {
    seq(|m|, i requires 0 <= i < |m| => PairText(m[i]))
  }

  function ExistsTexts(es: seq<Requirement>): seq<string> {
    if es == [] then []
    else (if es[0].operator == "Exists" then [es[0].key + " exists"] else []) + ExistsTexts(es[1..])
  }

  function Texts(sel: Selector): seq<string> {
    PairTexts(sel.matchLabels) + ExistsTexts(sel.matchExpressions)
  }

  function SelectorText(sel: Selector): string {
    Join(Texts(sel), ", ")
  }

  predicate Matches(sel: Selector, labels: Labels) {
    && (forall p <- sel.matchLabels :: Lookup(labels, p.0) == Some(p.1))
    && (forall e <- sel.matchExpressions :: e.operator == "Exists" ==> Lookup(labels, e.key).Some?)
  }

  // ---- what the parser produces, and what the printer can print back ----

  predicate CleanKey(k: string) {
    k != "" && Trimmed(k) && ',' !in k && '=' !in k
  }

  predicate CleanValue(v: string) {
    v != "" && Trimmed(v) && ',' !in v
  }

  predicate CleanPair(p: (string, string)) {
    CleanKey(p.0) && CleanValue(p.1)
  }

  predicate CleanRequirement(e: Requirement) {
    e.operator == "Exists" && e.key != "" && All(e.key, IsKeyChar)
  }

  predicate CleanLabels(m: Labels) {
    DistinctKeys(m) && forall p <- m :: CleanPair(p)
  }

  /** The labels of Kubernetes objects: a value may also be empty. */
  predicate TidyPair(p: (string, string)) {
    CleanKey(p.0) && (p.1 == "" || CleanValue(p.1))
  }

  predicate TidyLabels(m: Labels) {
    DistinctKeys(m) && forall p <- m :: TidyPair(p)
  }

  /** "key=" */
  predicate ValueMissing(text: string) {
    text != "" && text[|text| - 1] == '=' && '=' !in text[..|text| - 1]
  }

  predicate WellFormed(sel: Selector) {
    CleanLabels(sel.matchLabels) && forall e <- sel.matchExpressions :: CleanRequirement(e)
  }

  predicate CleanPart(p: string) {
    p != "" && Trimmed(p) && ',' !in p
  }

  lemma {:induction false} SetKeys(m: Labels, key: string, value: string)
    ensures forall p <- Set(m, key, value) :: p in m || p == (key, value)
    ensures DistinctKeys(m) ==> DistinctKeys(Set(m, key, value))
  {
    if m != [] && m[0].0 != key {
      SetKeys(m[1..], key, value);
      var r := Set(m[1..], key, value);
      if DistinctKeys(m) {
        assert forall p <- r :: p.0 != m[0].0 by {
          assert forall p <- m[1..] :: p.0 != m[0].0;
        }
        assert forall j | 0 <= j < |r| :: r[j] in r;
      }
    }
  }

  lemma {:induction false} SetLookup(m: Labels, key: string, value: string, k: string)
    ensures Lookup(Set(m, key, value), k) == if k == key then Some(value) else Lookup(m, k)
  {
    if m != [] {
      SetLookup(m[1..], key, value, k);
    }
  }

  lemma {:induction false} SetFresh(m: Labels, key: string, value: string)
    requires forall p <- m :: p.0 != key
    ensures Set(m, key, value) == m + [(key, value)]
  {
    if m != [] {
      SetFresh(m[1..], key, value);
    }
  }

  lemma {:induction false} LookupIn(m: Labels, key: string)
    ensures Lookup(m, key).Some? ==> (key, Lookup(m, key).value) in m
    ensures Lookup(m, key).None? ==> forall p <- m :: p.0 != key
  {
    if m != [] {
      LookupIn(m[1..], key);
      assert m == [m[0]] + m[1..];
    }
  }

  lemma {:induction false} LookupOf(m: Labels, p: (string, string))
    requires DistinctKeys(m) && p in m
    ensures Lookup(m, p.0) == Some(p.1)
  {
    if m[0] != p {
      var j :| 0 <= j < |m| && m[j] == p;
      assert m[1..][j - 1] == p;
      LookupOf(m[1..], p);
    }
  }

  lemma ExistsKeyShape(part: string)
    requires ExistsKey(part).Some?
    ensures '=' !in part
    ensures ExistsKey(part).value != "" && All(ExistsKey(part).value, IsKeyChar)
  {
    var n := RunLength(part, NotKeyChar);
    var m := RunLength(part[n..], NotSpace);
    assert forall i | 0 <= i < m :: part[n..][i] == part[n + i];
    assert forall i | n + m <= i < |part| :: part[i] == part[n + m..][i - n - m] && part[i] != '=';
    assert forall i | n <= i < n + m :: part[i] == part[n..][i - n] && IsSpace(part[i]);
  }

  lemma ParsePartIsClean(part: string, allowExists: bool)
    requires CleanPart(part)
    ensures var t := ParsePart(part, allowExists);
      CleanTerm(t) && (t.Key? ==> allowExists)
  {
    if ExistsKey(part).Some? {
      ExistsKeyShape(part);
    } else {
      var i := RunLength(part, IsEquals);
      if i < |part| {
        TrimShape(part[..i]);
        TrimShape(part[i + 1..]);
        assert forall c <- part[..i] :: c in part && c != '=';
        assert forall c <- part[i + 1..] :: c in part;
      }
    }
  }

  lemma PairTextIsClean(p: (string, string))
    requires CleanPair(p)
    ensures CleanPart(PairText(p)) && RunLength(PairText(p), IsEquals) == |p.0|
    ensures ExistsKey(PairText(p)).None?
  {
    hide TrimStart, TrimEnd, ExistsKey, RunLength;
    var t := PairText(p);
    assert t[|p.0|] == '=' && ',' !in t;
    if ExistsKey(t).Some? {
      ExistsKeyShape(t);
    }
    assert t == p.0 + ("=" + p.1);
    RunLengthIs(p.0, "=" + p.1, IsEquals);
  }

  lemma PairParses(p: (string, string), allowExists: bool)
    requires CleanPair(p)
    ensures CleanPart(PairText(p)) && ParsePart(PairText(p), allowExists) == Pair(p.0, p.1)
  {
    hide TrimStart, TrimEnd, ExistsKey, RunLength, Trim, Trimmed, CleanPart;
    PairTextIsClean(p);
    var t := PairText(p);
    assert t[..|p.0|] == p.0 && t[|p.0| + 1..] == p.1;
    TrimTrimmed(p.0);
    TrimTrimmed(p.1);
  }

  lemma ExistsKeyOf(key: string)
    requires key != "" && All(key, IsKeyChar)
    ensures ExistsKey(key + " exists") == Some(key)
  {
    var t := key + " exists";
    RunLengthIs(key, " exists", NotKeyChar);
    assert t[|key|..] == " " + "exists";
    RunLengthIs(" ", "exists", NotSpace);
    assert t[|key| + 1..] == "exists";
    assert t[..|key|] == key;
  }

  lemma ExistsParses(key: string)
    requires key != "" && All(key, IsKeyChar)
    ensures CleanPart(key + " exists") && ParsePart(key + " exists", true) == Key(key)
  {
    hide TrimStart, TrimEnd, ExistsKey, RunLength, Trim;
    ExistsKeyOf(key);
    var t := key + " exists";
    assert forall c <- key :: IsKeyChar(c);
    assert ',' !in t;
    assert t[0] == key[0] && t[|t| - 1] == 's';
  }

  // ---- the pieces of a joined text ----

  lemma TrimAllNone()
    ensures TrimAll([]) == []
  {
  }

  lemma TrimAllStep(part: string, parts: seq<string>)
    ensures TrimAll([part] + parts) == (if Trim(part) == "" then [] else [Trim(part)]) + TrimAll(parts)
  {
    assert ([part] + parts)[1..] == parts;
  }

  lemma {:induction false} TrimAllConcat(a: seq<string>, b: seq<string>)
    ensures TrimAll(a + b) == TrimAll(a) + TrimAll(b)
  {
    hide *;
    if a == [] {
      assert a + b == b;
      TrimAllNone();
      assert [] + TrimAll(b) == TrimAll(b);
    } else {
      TrimAllConcat(a[1..], b);
      assert a + b == [a[0]] + (a[1..] + b) && a == [a[0]] + a[1..];
      TrimAllStep(a[0], a[1..] + b);
      TrimAllStep(a[0], a[1..]);
      var first := if Trim(a[0]) == "" then [] else [Trim(a[0])];
      assert first + (TrimAll(a[1..]) + TrimAll(b)) == first + TrimAll(a[1..]) + TrimAll(b);
    }
  }

  lemma PartsConcat(a: string, b: string)
    ensures Parts(a + "," + b) == Parts(a) + Parts(b)
  {
    SplitConcat(a, b, ',');
    TrimAllConcat(Split(a, ','), Split(b, ','));
  }

  lemma PartsLeadingSpace(s: string)
    ensures Parts(" " + s) == Parts(s)
  {
    SplitStep(' ', s, ',');
    var rest := Split(s, ',');
    TrimPrefixSpace(rest[0]);
    assert ([" " + rest[0]] + rest[1..])[1..] == rest[1..];
  }

  lemma PartsNone()
    ensures Parts("") == []
  {
    SplitWhole("", ',');
    TrimAllStep("", []);
  }

  lemma PartsOne(text: string)
    requires CleanPart(text)
    ensures Parts(text) == [text]
  {
    SplitWhole(text, ',');
    TrimTrimmed(text);
    TrimAllStep(text, []);
    assert [text] + [] == [text];
  }

  lemma {:induction false} PartsJoin(texts: seq<string>)
    requires forall t <- texts :: CleanPart(t)
    ensures Parts(Join(texts, ", ")) == texts
  {
    hide *;
    PartsNone();
    JoinSteps(texts, ", ");
    if texts != [] {
      assert texts[0] in texts;
      PartsOne(texts[0]);
      if |texts| > 1 {
        var rest := Join(texts[1..], ", ");
        assert texts[0] + ", " + rest == texts[0] + "," + (" " + rest);
        PartsConcat(texts[0], " " + rest);
        PartsLeadingSpace(rest);
        PartsJoin(texts[1..]);
        assert texts == [texts[0]] + texts[1..];
      }
    }
  }

  lemma {:induction false} TrimAllClean(parts: seq<string>)
    requires forall p <- parts :: ',' !in p
    ensures forall p <- TrimAll(parts) :: CleanPart(p)
  {
    if parts != [] {
      TrimShape(parts[0]);
      TrimAllClean(parts[1..]);
    }
  }

  lemma PartsAreClean(text: string)
    ensures forall p <- Parts(text) :: CleanPart(p)
  {
    JoinSplit(text, ',');
    TrimAllClean(Split(text, ','));
  }

  // ---- round trip ----

  lemma AssembleStep(t: Term, terms: seq<Term>, acc: Selector)
    ensures Assemble([t] + terms, acc) == if t.Bad? then Refused(t.error) else Assemble(terms, Add(acc, t))
  {
    assert ([t] + terms)[1..] == terms;
  }

  lemma {:induction false} AssembleConcat(a: seq<Term>, b: seq<Term>, acc: Selector)
    ensures Assemble(a + b, acc)
      == match Assemble(a, acc)
         case Refused(e) => Refused(e)
         case Parsed(s) => Assemble(b, s)
  {
    if a == [] {
      assert a + b == b;
    } else {
      assert (a + b)[1..] == a[1..] + b;
      if !a[0].Bad? {
        AssembleConcat(a[1..], b, Add(acc, a[0]));
      }
    }
  }

  function PairTerms(m: Labels): (r: seq<Term>)
    ensures |r| == |m| && forall i | 0 <= i < |m| :: r[i] == Pair(m[i].0, m[i].1)
  {
    seq(|m|, i requires 0 <= i < |m| => Pair(m[i].0, m[i].1))
  }

  function KeyTerms(es: seq<Requirement>): (r: seq<Term>)
    ensures |r| == |es| && forall i | 0 <= i < |es| :: r[i] == Key(es[i].key)
  {
    seq(|es|, i requires 0 <= i < |es| => Key(es[i].key))
  }

  lemma {:induction false} AssemblePairs(m: Labels, acc: Selector)
    requires DistinctKeys(acc.matchLabels + m)
    ensures Assemble(PairTerms(m), acc) == Parsed(acc.(matchLabels := acc.matchLabels + m))
  {
    var all := acc.matchLabels + m;
    if m == [] {
      assert all == acc.matchLabels;
    } else {
      assert all[|acc.matchLabels|] == m[0];
      assert forall i | 0 <= i < |acc.matchLabels| :: all[i] == acc.matchLabels[i] && all[i].0 != m[0].0;
      SetFresh(acc.matchLabels, m[0].0, m[0].1);
      var acc' := Add(acc, Pair(m[0].0, m[0].1));
      assert acc'.matchLabels + m[1..] == all;
      AssemblePairs(m[1..], acc');
      assert PairTerms(m)[1..] == PairTerms(m[1..]);
    }
  }

  lemma {:induction false} AssembleKeys(es: seq<Requirement>, acc: Selector)
    requires forall e <- es :: e.operator == "Exists"
    ensures Assemble(KeyTerms(es), acc) == Parsed(acc.(matchExpressions := acc.matchExpressions + es))
  {
    if es == [] {
      assert acc.matchExpressions + es == acc.matchExpressions;
    } else {
      assert es[0] in es && es[0] == Requirement(es[0].key, "Exists");
      var acc' := Add(acc, Key(es[0].key));
      AssembleKeys(es[1..], acc');
      assert acc'.matchExpressions + es[1..] == acc.matchExpressions + es;
      assert KeyTerms(es)[1..] == KeyTerms(es[1..]);
    }
  }

  lemma TextsOfPairs(m: Labels, allowExists: bool)
    requires forall p <- m :: CleanPair(p)
    ensures Terms(PairTexts(m), allowExists) == PairTerms(m)
    ensures forall t <- PairTexts(m) :: CleanPart(t)
  {
    forall i | 0 <= i < |m|
      ensures CleanPart(PairText(m[i])) && ParsePart(PairText(m[i]), allowExists) == Pair(m[i].0, m[i].1)
    {
      assert m[i] in m;
      PairParses(m[i], allowExists);
    }
  }

  lemma {:induction false} TextsOfKeys(es: seq<Requirement>)
    requires forall e <- es :: CleanRequirement(e)
    ensures |ExistsTexts(es)| == |es|
    ensures Terms(ExistsTexts(es), true) == KeyTerms(es)
    ensures forall t <- ExistsTexts(es) :: CleanPart(t)
  {
    hide ParsePart, Trimmed, IsKeyChar, All;
    if es != [] {
      assert es[0] in es;
      ExistsParses(es[0].key);
      TextsOfKeys(es[1..]);
      var t := es[0].key + " exists";
      assert ExistsTexts(es) == [t] + ExistsTexts(es[1..]);
      assert Terms(ExistsTexts(es), true) == [ParsePart(t, true)] + Terms(ExistsTexts(es[1..]), true);
      assert KeyTerms(es) == [Key(es[0].key)] + KeyTerms(es[1..]);
    }
  }

  predicate CleanTerm(t: Term) {
    match t
    case Pair(k, v) => CleanPair((k, v))
    case Key(k) => CleanRequirement(Requirement(k, "Exists"))
    case Bad(_) => true
  }

  lemma {:induction false} AssembledIsWellFormed(terms: seq<Term>, acc: Selector)
    requires WellFormed(acc) && forall i | 0 <= i < |terms| :: CleanTerm(terms[i])
    ensures var r := Assemble(terms, acc);
      r.Parsed? ==>
        && WellFormed(r.sel)
        && ((forall i | 0 <= i < |terms| :: !terms[i].Key?) ==> r.sel.matchExpressions == acc.matchExpressions)
  {
    if terms != [] && !terms[0].Bad? {
      if terms[0].Pair? {
        SetKeys(acc.matchLabels, terms[0].key, terms[0].value);
      }
      AssembledIsWellFormed(terms[1..], Add(acc, terms[0]));
    }
  }

  /** What the parser accepts is always well formed. */
  lemma ParsedIsWellFormed(text: string, allowExists: bool)
    ensures var r := Parse(text, allowExists);
      WellFormed(r.Seen()) && (!allowExists ==> r.Seen().matchExpressions == [])
  {
    PartsAreClean(text);
    var parts := Parts(text);
    forall i | 0 <= i < |parts|
      ensures CleanTerm(ParsePart(parts[i], allowExists)) && (ParsePart(parts[i], allowExists).Key? ==> allowExists)
    {
      assert parts[i] in parts;
      ParsePartIsClean(parts[i], allowExists);
    }
    AssembledIsWellFormed(Terms(parts, allowExists), EMPTY);
  }

  lemma TermsOfText(sel: Selector)
    requires WellFormed(sel)
    ensures Parts(SelectorText(sel)) == Texts(sel)
    ensures Terms(Parts(SelectorText(sel)), true) == PairTerms(sel.matchLabels) + KeyTerms(sel.matchExpressions)
  {
    hide Parts, ExistsTexts, Join, ParsePart;
    TextsOfPairs(sel.matchLabels, true);
    TextsOfKeys(sel.matchExpressions);
    PartsJoin(Texts(sel));
    TermsConcat(PairTexts(sel.matchLabels), ExistsTexts(sel.matchExpressions), true);
  }

  /** The printer's text reads back as the same selector exactly when the selector is well formed. */
  lemma SelectorRoundTrip(sel: Selector)
    ensures Parse(SelectorText(sel)) == Parsed(sel) <==> WellFormed(sel)
  {
    if WellFormed(sel) {
      TermsOfText(sel);
      assert [] + sel.matchLabels == sel.matchLabels;
      assert [] + sel.matchExpressions == sel.matchExpressions;
      AssembleConcat(PairTerms(sel.matchLabels), KeyTerms(sel.matchExpressions), EMPTY);
      AssemblePairs(sel.matchLabels, EMPTY);
      AssembleKeys(sel.matchExpressions, Selector(sel.matchLabels, []));
    }
    if Parse(SelectorText(sel)) == Parsed(sel) {
      ParsedIsWellFormed(SelectorText(sel), true);
    }
  }

  /** Text of pairs alone reads back, also where the parser refuses "exists". */
  lemma PairsRoundTrip(m: Labels, allowExists: bool)
    requires CleanLabels(m)
    ensures Parts(Join(PairTexts(m), ", ")) == PairTexts(m)
    ensures Parse(Join(PairTexts(m), ", "), allowExists) == Parsed(Selector(m, []))
  {
    TextsOfPairs(m, allowExists);
    PartsJoin(PairTexts(m));
    assert [] + m == m;
    AssemblePairs(m, EMPTY);
  }

  /** Printing a parsed text and parsing it again changes nothing. */
  lemma ReparseIsStable(text: string)
    ensures var r := Parse(text); r.Parsed? ==> Parse(SelectorText(r.sel)) == r
  {
    ParsedIsWellFormed(text, true);
    var r := Parse(text);
    if r.Parsed? {
      SelectorRoundTrip(r.sel);
    }
  }

  // ---- meaning ----

  function Over(top: Option<string>, under: Option<string>): Option<string> {
    if top.Some? then top else under
  }

  lemma {:induction false} AssembleAcc(terms: seq<Term>, acc: Selector)
    ensures var r, s := Assemble(terms, acc), Assemble(terms, EMPTY);
      && (r.Refused? || s.Refused? ==> r == s)
      && (r.Parsed? ==>
        && r.sel.matchExpressions == acc.matchExpressions + s.sel.matchExpressions
        && forall k :: Lookup(r.sel.matchLabels, k) == Over(Lookup(s.sel.matchLabels, k), Lookup(acc.matchLabels, k)))
  {
    if terms != [] && !terms[0].Bad? {
      var t := terms[0];
      AssembleAcc(terms[1..], Add(acc, t));
      AssembleAcc(terms[1..], Add(EMPTY, t));
      forall k
        ensures Lookup(Add(acc, t).matchLabels, k)
          == Over(Lookup(Add(EMPTY, t).matchLabels, k), Lookup(acc.matchLabels, k))
      {
        if t.Pair? {
          SetLookup(acc.matchLabels, t.key, t.value, k);
          SetLookup([], t.key, t.value, k);
        }
      }
    }
  }

  /** No key is given two different values by the two selectors. */
  predicate Agree(a: Selector, b: Selector) {
    forall p <- a.matchLabels, q <- b.matchLabels :: p.0 == q.0 ==> p.1 == q.1
  }

  lemma AssembleJoined(ta: seq<Term>, tb: seq<Term>)
    ensures var ra, rb, r := Assemble(ta, EMPTY), Assemble(tb, EMPTY), Assemble(ta + tb, EMPTY);
      && (r.Parsed? <==> ra.Parsed? && rb.Parsed?)
      && (r.Parsed? ==>
        && r.sel.matchExpressions == ra.sel.matchExpressions + rb.sel.matchExpressions
        && forall k :: Lookup(r.sel.matchLabels, k) == Over(Lookup(rb.sel.matchLabels, k), Lookup(ra.sel.matchLabels, k)))
  {
    AssembleConcat(ta, tb, EMPTY);
    if Assemble(ta, EMPTY).Parsed? {
      AssembleAcc(tb, Assemble(ta, EMPTY).sel);
    }
  }

  lemma TermsConcat(a: seq<string>, b: seq<string>, allowExists: bool)
    ensures Terms(a + b, allowExists) == Terms(a, allowExists) + Terms(b, allowExists)
  {
  }

  /** Two texts joined by a comma parse exactly when both do, to the later value for each key. */
  lemma ParseJoined(a: string, b: string)
    ensures var ra, rb, r := Parse(a), Parse(b), Parse(a + "," + b);
      && (r.Parsed? <==> ra.Parsed? && rb.Parsed?)
      && (r.Parsed? ==>
        && r.sel.matchExpressions == ra.sel.matchExpressions + rb.sel.matchExpressions
        && forall k :: Lookup(r.sel.matchLabels, k) == Over(Lookup(rb.sel.matchLabels, k), Lookup(ra.sel.matchLabels, k)))
  {
    PartsConcat(a, b);
    TermsConcat(Parts(a), Parts(b), true);
    AssembleJoined(Terms(Parts(a), true), Terms(Parts(b), true));
  }

  /** Matching, said key by key. */
  ghost predicate CarriesKeys(sel: Selector, labels: Labels) {
    && (forall k :: Lookup(sel.matchLabels, k).Some? ==> Lookup(labels, k) == Lookup(sel.matchLabels, k))
    && (forall e <- sel.matchExpressions :: Lookup(labels, e.key).Some?)
  }

  lemma MatchesByLookup(sel: Selector, labels: Labels)
    requires WellFormed(sel)
    ensures Matches(sel, labels) <==> CarriesKeys(sel, labels)
  {
    forall p | p in sel.matchLabels
      ensures Lookup(sel.matchLabels, p.0) == Some(p.1)
    {
      LookupOf(sel.matchLabels, p);
    }
    forall k
      ensures Lookup(sel.matchLabels, k).Some? ==> (k, Lookup(sel.matchLabels, k).value) in sel.matchLabels
    {
      LookupIn(sel.matchLabels, k);
    }
    assert CarriesKeys(sel, labels) ==> Matches(sel, labels) by {
      if CarriesKeys(sel, labels) {
        forall p | p in sel.matchLabels
          ensures Lookup(labels, p.0) == Some(p.1)
        {
          assert Lookup(sel.matchLabels, p.0).Some?;
        }
      }
    }
    forall e | e in sel.matchExpressions
      ensures e.operator == "Exists"
    {
      assert CleanRequirement(e);
    }
  }

  /** Where no key conflicts, a joined text selects what both its parts select. */
  lemma JoinedMeansBoth(a: string, b: string, labels: Labels)
    requires Parse(a).Parsed? && Parse(b).Parsed? && Agree(Parse(a).sel, Parse(b).sel)
    ensures Parse(a + "," + b).Parsed?
    ensures Matches(Parse(a + "," + b).sel, labels) <==> Matches(Parse(a).sel, labels) && Matches(Parse(b).sel, labels)
  {
    hide Parse, Parts, Terms, Assemble, Lookup, Matches, WellFormed, CleanLabels;
    var sa, sb := Parse(a).sel, Parse(b).sel;
    ParseJoined(a, b);
    var s := Parse(a + "," + b).sel;
    ParsedIsWellFormed(a, true);
    ParsedIsWellFormed(b, true);
    ParsedIsWellFormed(a + "," + b, true);
    MatchesByLookup(sa, labels);
    MatchesByLookup(sb, labels);
    MatchesByLookup(s, labels);
    forall k
      ensures Lookup(sa.matchLabels, k).Some? && Lookup(sb.matchLabels, k).Some?
        ==> Lookup(sa.matchLabels, k) == Lookup(sb.matchLabels, k)
      ensures Lookup(s.matchLabels, k) == Over(Lookup(sb.matchLabels, k), Lookup(sa.matchLabels, k))
    {
      LookupIn(sa.matchLabels, k);
      LookupIn(sb.matchLabels, k);
    }
  }

  /** Labels that carry every pair of the selector, and every required key. */
  function Carrier(sel: Selector): Labels {
    sel.matchLabels + seq(|sel.matchExpressions|, i requires 0 <= i < |sel.matchExpressions| => (sel.matchExpressions[i].key, "x"))
  }

  lemma {:induction false} LookupConcat(a: Labels, b: Labels, k: string)
    ensures Lookup(a + b, k) == Over(Lookup(a, k), Lookup(b, k))
  {
    if a == [] {
      assert a + b == b;
    } else {
      LookupConcat(a[1..], b, k);
      assert (a + b)[1..] == a[1..] + b;
    }
  }

  lemma CarrierMatches(sel: Selector)
    requires DistinctKeys(sel.matchLabels)
    ensures Matches(sel, Carrier(sel))
  {
    var extra := Carrier(sel)[|sel.matchLabels|..];
    assert Carrier(sel) == sel.matchLabels + extra;
    forall p | p in sel.matchLabels
      ensures Lookup(Carrier(sel), p.0) == Some(p.1)
    {
      LookupOf(sel.matchLabels, p);
      LookupConcat(sel.matchLabels, extra, p.0);
    }
    forall e | e in sel.matchExpressions
      ensures Lookup(Carrier(sel), e.key).Some?
    {
      var i :| 0 <= i < |sel.matchExpressions| && sel.matchExpressions[i] == e;
      assert Carrier(sel)[|sel.matchLabels| + i].0 == e.key;
      LookupIn(Carrier(sel), e.key);
    }
  }

  /**
   * Where a key conflicts the law fails: the joined text keeps the later value
   * alone, so it selects labels that the first part does not.
   */
  lemma ConflictLosesFirst(a: string, b: string)
    requires Parse(a).Parsed? && Parse(b).Parsed? && !Agree(Parse(a).sel, Parse(b).sel)
    ensures Parse(a + "," + b).Parsed?
    ensures var s := Parse(a + "," + b).sel; Matches(s, Carrier(s)) && !Matches(Parse(a).sel, Carrier(s))
  {
    hide Parse, Carrier, Lookup, CleanPair, CleanRequirement;
    var sa, sb := Parse(a).sel, Parse(b).sel;
    ParseJoined(a, b);
    var s := Parse(a + "," + b).sel;
    ParsedIsWellFormed(a, true);
    ParsedIsWellFormed(b, true);
    ParsedIsWellFormed(a + "," + b, true);
    CarrierMatches(s);
    var p, q :| p in sa.matchLabels && q in sb.matchLabels && p.0 == q.0 && p.1 != q.1;
    LookupOf(sb.matchLabels, q);
    assert Lookup(s.matchLabels, q.0) == Some(q.1);
    LookupIn(s.matchLabels, q.0);
    assert Lookup(Carrier(s), q.0) == Some(q.1);
  }

  lemma OneTerm(text: string, t: Term, allowExists: bool)
    requires CleanPart(text) && ParsePart(text, allowExists) == t && !t.Bad?
    ensures Parse(text, allowExists) == Parsed(Add(EMPTY, t))
  {
    hide ParsePart, Parts, CleanPart;
    PartsOne(text);
    assert Terms([text], allowExists) == [t] + [];
    AssembleStep(t, [], EMPTY);
  }

  /** One pair as a text selects exactly the labels that carry it. */
  lemma PairMatches(p: (string, string), labels: Labels, allowExists: bool)
    requires CleanPair(p)
    ensures Parse(PairText(p), allowExists) == Parsed(Selector([p], []))
    ensures Matches(Selector([p], []), labels) <==> Lookup(labels, p.0) == Some(p.1)
  {
    hide ParsePart, Parse, CleanPart, CleanPair, PairText, Lookup;
    PairParses(p, allowExists);
    OneTerm(PairText(p), Pair(p.0, p.1), allowExists);
    assert Set([], p.0, p.1) == [p];
    assert p in [p];
  }

  // ---- pairs whose value is empty ----

  lemma TidyText(p: (string, string))
    requires TidyPair(p)
    ensures ValueMissing(PairText(p)) <==> p.1 == ""
    ensures PairText(p) != "" && Split(PairText(p), '=')[0] == p.0
  {
    hide TrimStart, TrimEnd;
    var t := PairText(p);
    assert t == p.0 + "=" + p.1 && t[|p.0|] == '=';
    if p.1 == "" {
      assert t[..|t| - 1] == p.0;
    } else {
      assert t[..|t| - 1][|p.0|] == '=';
    }
    SplitConcat(p.0, p.1, '=');
    SplitWhole(p.0, '=');
  }

  lemma TidyTextInjective(p: (string, string), q: (string, string))
    requires TidyPair(p) && TidyPair(q) && PairText(p) == PairText(q)
    ensures p == q
  {
    hide Split;
    TidyText(p);
    TidyText(q);
    assert p.1 == PairText(p)[|p.0| + 1..] && q.1 == PairText(q)[|q.0| + 1..];
  }

  lemma EmptyValueTerm(key: string, allowExists: bool)
    requires CleanKey(key)
    ensures CleanPart(key + "=") && ParsePart(key + "=", allowExists) == Bad(EmptyValue(key))
  {
    hide TrimStart, TrimEnd;
    var t := key + "=";
    assert t[|key|] == '=';
    if ExistsKey(t).Some? {
      ExistsKeyShape(t);
    }
    RunLengthIs(key, "=", IsEquals);
    assert t[..|key|] == key && t[|key| + 1..] == "";
    TrimTrimmed(key);
    TrimTrimmed("");
    assert ',' !in t;
  }

  /** The text of a label without a value is refused, and a refused text is taken to select every object. */
  lemma EmptyValueRefused(key: string, allowExists: bool, labels: Labels)
    requires CleanKey(key)
    ensures Parse(key + "=", allowExists) == Refused(EmptyValue(key))
    ensures Matches(Parse(key + "=", allowExists).Seen(), labels)
  {
    hide ParsePart, Parts, CleanKey, CleanPart;
    EmptyValueTerm(key, allowExists);
    PartsOne(key + "=");
    assert Terms([key + "="], allowExists) == [Bad(EmptyValue(key))] + [];
    AssembleStep(Bad(EmptyValue(key)), [], EMPTY);
  }

  /** A label's text is accepted exactly when it has a value; it then selects the objects that carry the label, else every object. */
  lemma TidyPairSelects(p: (string, string), labels: Labels, allowExists: bool)
    requires TidyPair(p) && DistinctKeys(labels)
    ensures Parse(PairText(p), allowExists).Parsed? <==> !ValueMissing(PairText(p))
    ensures Matches(Parse(PairText(p), allowExists).Seen(), labels) <==> ValueMissing(PairText(p)) || p in labels
    ensures PairText(p) != "" && Join([PairText(p)], ", ") == PairText(p)
  {
    hide Parse, CleanKey, CleanValue, Lookup, Matches, PairText, ValueMissing, DistinctKeys, Split;
    TidyText(p);
    if p.1 == "" {
      EmptyText(p.0);
      EmptyValueRefused(p.0, allowExists, labels);
    } else {
      PairMatches(p, labels, allowExists);
      LookupIn(labels, p.0);
      if p in labels {
        LookupOf(labels, p);
      }
    }
  }

  lemma EmptyText(key: string)
    ensures PairText((key, "")) == key + "="
  {
    assert key + "=" + "" == key + "=";
  }

  lemma ConflictTexts()
    ensures var one, two := ("a", "1"), ("a", "2");
      CleanPair(one) && CleanPair(two) && PairText(one) == "a=1" && PairText(two) == "a=2" && one != two
  {
    assert "1"[0] != "2"[0];
  }

  lemma LaterValue(acc: Selector)
    requires acc == Selector([("a", "1")], [])
    ensures Assemble([Pair("a", "2")], acc) == Parsed(Selector([("a", "2")], []))
  {
    assert [Pair("a", "2")] == [Pair("a", "2")] + [];
    AssembleStep(Pair("a", "2"), [], acc);
    assert acc.matchLabels[1..] == [];
  }

  /** a=1,a=2 selects what a=2 selects, and a=1 selects nothing of it. */
  lemma ConflictExample()
    ensures Parse("a=1" + "," + "a=2") == Parsed(Selector([("a", "2")], []))
    ensures var labels := [("a", "2")];
      Matches(Parse("a=1" + "," + "a=2").Seen(), labels) && !Matches(Parse("a=1").Seen(), labels)
  {
    hide ParsePart, CleanPair, PairText, Parts, Assemble, Matches, CleanPart;
    var one, two := ("a", "1"), ("a", "2");
    ConflictTexts();
    PairMatches(one, [two], true);
    PairMatches(two, [two], true);
    PairParses(one, true);
    PairParses(two, true);
    PartsConcat("a=1", "a=2");
    PartsOne("a=1");
    PartsOne("a=2");
    TermsConcat(["a=1"], ["a=2"], true);
    AssembleConcat(Terms(["a=1"], true), Terms(["a=2"], true), EMPTY);
    assert Terms(["a=2"], true) == [Pair("a", "2")];
    LaterValue(Parse("a=1").sel);
  }
}
