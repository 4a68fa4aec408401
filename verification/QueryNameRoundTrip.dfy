/**
 * Writing query plans as method names. A name written with the parts in
 * order, out of property texts free of the words that structure a name, is
 * parsed back to the plan it was written for.
 */
module QueryNameRoundTrip {
  import opened Text
  import opened Keywords
  import opened QueryName
  import Numerals

  // ----- spellings -----

  /** One condition as written: the property's text, the keyword if any, and whether case is ignored. */
  datatype Segment = Segment(raw: string, keyword: Option<nat>, casing: Casing)

  /** Whether case is minded, and with which word it is ignored. */
  datatype Casing = Minded | Ignore | Ignoring

  datatype Direction = Direction(raw: string, descending: bool)

  /** A limit as written: `Top` or `First`, with its number or, for one, without. */
  datatype Limit = Limit(top: bool, count: nat, bare: bool)

  datatype Spelling = Spelling(
    introducer: nat, distinct: bool, limit: Option<Limit>, segments: seq<Segment>, combinators: seq<Combinator>,
    allCasing: Casing, directions: seq<Direction>)

  function Word(s: Segment): string
    requires s.keyword.Some? ==> s.keyword.value < COUNT
  {
    s.raw + match s.keyword case None => "" case Some(k) => Suffix(k)
  }

  function SegmentText(s: Segment): string
    requires s.keyword.Some? ==> s.keyword.value < COUNT
  {
    Word(s) + CaseWord(s.casing)
  }

  function CaseWord(casing: Casing): string {
    match casing case Minded => "" case Ignore => "IgnoreCase" case Ignoring => "IgnoringCase"
  }

  function Meaning(s: Segment, all: bool): Condition
    requires s.keyword.Some? ==> s.keyword.value < COUNT
  {
    match s.keyword
    case None => Condition(PropertyPath(s.raw), Eq, s.casing != Minded || all, 1)
    case Some(k) =>
      Condition(PropertyPath(s.raw), KeywordAt(k).operator, s.casing != Minded || all, KeywordAt(k).argCount)
  }

  /** No keyword longer than the one written is a proper suffix of the property and keyword. */
  ghost predicate Longest(s: Segment) {
    && (s.keyword.Some? ==> s.keyword.value < COUNT)
    && forall i: nat :: i < COUNT && ProperSuffix(Word(s), i) && s.keyword != Some(i) ==>
        s.keyword.Some? && |Suffix(i)| < |Suffix(s.keyword.value)|
  }

  ghost predicate PlainCase(s: Segment)
    requires s.keyword.Some? ==> s.keyword.value < COUNT
  {
    s.casing == Minded ==> !EndsWith(Word(s), "IgnoreCase") && !EndsWith(Word(s), "IgnoringCase")
  }

  // ----- one condition -----

  /** The keyword read from a segment is the one written exactly when no longer one is a proper suffix. */
  lemma KeywordExactly(s: Segment)
    requires s.raw != "" && (s.keyword.Some? ==> s.keyword.value < COUNT)
    ensures FirstMatch(Word(s), 0) == (match s.keyword case None => -1 case Some(k) => k) <==> Longest(s)
  {
    hide FirstMatch, KeywordAt, Suffix;
    match s.keyword
    case None =>
      FirstMatchIs(Word(s), 0);
    case Some(k) =>
      assert ProperSuffix(Word(s), k);
      FirstIsLongest(Word(s), k);
  }

  lemma ConditionRoundTrip(s: Segment, all: bool)
    requires s.raw != "" && Longest(s) && PlainCase(s)
    ensures ParseCondition(SegmentText(s), all) == Meaning(s, all)
  {
    hide FirstMatch, KeywordAt, PropertyPath;
    KeywordExactly(s);
    match s.casing {
      case Minded => assert SegmentText(s) == Word(s);
      case _ => CaseRead(Word(s), s.casing);
    }
    match s.keyword
    case None => assert Word(s) == s.raw;
    case Some(k) => assert Unsuffixed(Word(s), Suffix(k)) == s.raw;
  }

  /** Both words for ignoring case are found at the end, and taken off. */
  lemma CaseRead(w: string, casing: Casing)
    requires casing != Minded
    ensures var word, t := CaseWord(casing), w + CaseWord(casing);
      EndsWith(t, word) && Unsuffixed(t, word) == w && (casing == Ignoring ==> !EndsWith(t, "IgnoreCase"))
  {
    var t := w + CaseWord(casing);
    if casing == Ignoring {
      assert t[|t| - 5] == "IgnoringCase"[7];
      assert |t| >= 10;
      assert EndsWith(t, "IgnoreCase") ==> t[|t| - 10..][5] == t[|t| - 5];
    }
  }

  // ----- words inside and across pieces -----

  ghost predicate Lacks(t: string, w: string) { forall i: nat :: i < |t| ==> !At(t, w, i) }

  ghost predicate Wordless(t: string, w: string) { forall i: nat :: i < |t| ==> !LastWordAt(t, w, i) }

  /** What the text behind a structuring word starts with: a capital letter or an underscore. */
  predicate Capital(c: char) { 'A' <= c <= 'Z' || c == '_' }

  /** A segment text none of the structuring words occurs in. */
  ghost predicate Clean(t: string) {
    && t != "" && Capital(t[0]) && Wordless(t, "And") && Wordless(t, "Or")
    && Lacks(t, "OrderBy") && Lacks(t, "AllIgnoreCase") && Lacks(t, "AllIgnoringCase")
  }

  /** The letters of a word that occurs. */
  lemma AtChar(s: string, w: string, i: nat, k: nat)
    requires k < |w|
    ensures At(s, w, i) ==> i + |w| <= |s| && s[i + k] == w[k]
  {
    if At(s, w, i) {
      assert s[i..i + |w|][k] == w[k];
    }
  }

  /** A word that starts in `a` ends there if what follows cannot continue it. */
  lemma InFirst(a: string, rest: string, w: string, i: nat)
    requires i < |a| && At(a + rest, w, i)
    requires rest != "" ==> forall k :: 1 <= k < |w| ==> w[k] != rest[0]
    ensures At(a, w, i)
  {
    var t := a + rest;
    if |a| - i < |w| {
      AtChar(t, w, i, |a| - i);
    }
    assert t[i..i + |w|] == a[i..i + |w|];
  }

  lemma WordInFirst(a: string, rest: string, w: string, i: nat)
    requires i < |a| && LastWordAt(a + rest, w, i)
    requires rest != "" ==> forall k :: 1 <= k < |w| ==> w[k] != rest[0]
    ensures LastWordAt(a, w, i)
  {
    InFirst(a, rest, w, i);
  }

  lemma AtRest(a: string, rest: string, w: string, i: nat)
    ensures At(a + rest, w, |a| + i) == At(rest, w, i)
  {
    if i + |w| <= |rest| {
      assert (a + rest)[|a| + i..|a| + i + |w|] == rest[i..i + |w|];
    }
  }

  // ----- connectives -----

  function Chain(texts: seq<string>, cs: seq<Combinator>): string
    requires |texts| == |cs| + 1
  {
    if cs == [] then texts[0] else texts[0] + Conn(cs[0]) + Chain(texts[1..], cs[1..])
  }

  ghost predicate AllClean(texts: seq<string>) { forall i :: 0 <= i < |texts| ==> Clean(texts[i]) }

  lemma ChainStart(texts: seq<string>, cs: seq<Combinator>)
    requires |texts| == |cs| + 1 && AllClean(texts)
    ensures Chain(texts, cs) != "" && IsHump(Chain(texts, cs)[0])
  {
    assert Clean(texts[0]);
  }

  lemma {:induction false} SplitChain(texts: seq<string>, cs: seq<Combinator>)
    requires |texts| == |cs| + 1 && AllClean(texts)
    ensures SplitAndOr(Chain(texts, cs)) == Pieces(texts, cs)
  {
    hide Clean, SplitAndOr, Capital, IsHump, FindConnective, WordAt;
    assert Clean(texts[0]);
    if cs == [] {
      SplitOne(texts[0]);
    } else {
      SplitChain(texts[1..], cs[1..]);
      ChainStart(texts[1..], cs[1..]);
      SplitFirst(texts[0], cs[0], Chain(texts[1..], cs[1..]));
      Assoc(texts[0], Conn(cs[0]), Chain(texts[1..], cs[1..]));
    }
  }

  lemma SplitOne(t: string)
    requires Clean(t)
    ensures SplitAndOr(t) == Pieces([t], [])
  {
    hide SplitAndOr, FindConnective;
    SplitUnfold(t);
    FindConnectiveIs(t, 0);
    forall j: nat | j < |t| ensures !WordAt(t, "And", j) && !WordAt(t, "Or", j) {
      assert !LastWordAt(t, "And", j) && !LastWordAt(t, "Or", j);
    }
  }

  lemma SplitFirst(a: string, c: Combinator, rest: string)
    requires Clean(a) && rest != "" && IsHump(rest[0])
    ensures SplitAndOr(a + Conn(c) + rest) ==
      Pieces([a] + SplitAndOr(rest).segments, [c] + SplitAndOr(rest).combinators)
  {
    hide SplitAndOr, FindConnective;
    var t := a + Conn(c) + rest;
    SplitUnfold(t);
    FirstConnective(a, c, rest);
    hide Clean;
    assert Slice(t, 0, |a|) == a && From(t, |a| + |Conn(c)|) == rest;
    assert SplitAndOr(t) == Put(a, c, SplitAndOr(rest));
  }

  lemma FirstConnective(a: string, c: Combinator, rest: string)
    requires Clean(a) && rest != "" && IsHump(rest[0])
    ensures var t := a + Conn(c) + rest;
      FindConnective(t, 0) == |a| && ConnectiveAt(t, |a|) == c && Behind(t, |a|) == |a| + |Conn(c)|
  {
    hide FindConnective;
    var t := a + Conn(c) + rest;
    assert t[|a|..|a| + |Conn(c)|] == Conn(c) && t[|a| + |Conn(c)|] == rest[0];
    assert WordAt(t, Conn(c), |a|);
    FindConnectiveIs(t, 0);
    var i := FindConnective(t, 0);
    if i < |a| {
      Assoc(a, Conn(c), rest);
      NoConnective(a, Conn(c) + rest, i);
    }
    assert c == Or ==> t[|a|] == 'O';
    AtChar(t, "And", |a|, 0);
  }

  lemma NoConnective(a: string, rest: string, i: nat)
    requires Clean(a) && rest != "" && IsHump(rest[0]) && i < |a|
    ensures !WordAt(a + rest, "And", i) && !WordAt(a + rest, "Or", i)
  {
    if WordAt(a + rest, "And", i) {
      WordInFirst(a, rest, "And", i);
    }
    if WordAt(a + rest, "Or", i) {
      WordInFirst(a, rest, "Or", i);
    }
  }

  // ----- the words that end the predicate -----

  predicate Ender(w: string) { w == "OrderBy" || w == "AllIgnoreCase" || w == "AllIgnoringCase" }

  /** Nothing that can follow a segment continues one of these words. */
  lemma NotContinued(w: string, k: nat)
    requires Ender(w) && 1 <= k < |w|
    ensures w[k] != 'A' && w[k] != 'O'
  {
  }

  lemma NotInConnective(c: Combinator, rest: string, w: string, i: nat)
    requires Ender(w) && rest != "" && IsHump(rest[0]) && i < |Conn(c)|
    ensures !At(Conn(c) + rest, w, i)
  {
    var t := Conn(c) + rest;
    AtChar(t, w, i, 0);
    AtChar(t, w, i, 1);
    AtChar(t, w, i, 2);
  }

  /** No ending word starts inside a chain of clean segments, whatever follows it. */
  lemma {:induction false} ChainLacks(texts: seq<string>, cs: seq<Combinator>, tail: string, w: string, i: nat)
    requires |texts| == |cs| + 1 && AllClean(texts) && Ender(w)
    requires tail != "" ==> tail[0] == 'A' || tail[0] == 'O'
    requires i < |Chain(texts, cs)|
    ensures !At(Chain(texts, cs) + tail, w, i)
    decreases |cs|
  {
    var a := texts[0];
    assert Clean(a);
    if cs == [] {
      NotInClean(a, tail, w, i);
    } else {
      var more := Chain(texts[1..], cs[1..]);
      var c := Conn(cs[0]);
      ChainStart(texts[1..], cs[1..]);
      assert Chain(texts, cs) + tail == a + (c + (more + tail)) by { Assoc4(a, c, more, tail); Assoc(a, c, more); }
      hide Clean, At, Ender;
      if i < |a| {
        assert (c + (more + tail))[0] == c[0];
        NotInClean(a, c + (more + tail), w, i);
      } else {
        AtRest(a, c + (more + tail), w, i - |a|);
        if i - |a| < |c| {
          assert (more + tail)[0] == more[0];
          NotInConnective(cs[0], more + tail, w, i - |a|);
        } else {
          AtRest(c, more + tail, w, i - |a| - |c|);
          ChainLacks(texts[1..], cs[1..], tail, w, i - |a| - |c|);
        }
      }
    }
  }

  lemma NotInClean(a: string, rest: string, w: string, i: nat)
    requires Clean(a) && Ender(w) && i < |a| && (rest != "" ==> rest[0] == 'A' || rest[0] == 'O')
    ensures !At(a + rest, w, i)
  {
    if At(a + rest, w, i) {
      forall k | 1 <= k < |w| ensures rest != "" ==> w[k] != rest[0] {
        NotContinued(w, k);
      }
      InFirst(a, rest, w, i);
    }
  }

  // ----- the global flag -----

  lemma {:induction false} UnflagPrefix(b: string, t: string)
    requires forall i: nat :: i < |b| ==> !At(b + t, "AllIgnoreCase", i) && !At(b + t, "AllIgnoringCase", i)
    ensures Unflag(b + t) == b + Unflag(t) && Flagged(b + t) == Flagged(t)
    decreases |b|
  {
    if b == "" {
      assert b + t == t;
    } else {
      var s := b + t;
      assert s[1..] == b[1..] + t;
      forall i: nat | i < |b[1..]|
        ensures !At(b[1..] + t, "AllIgnoreCase", i) && !At(b[1..] + t, "AllIgnoringCase", i)
      {
        AtLater(s, "AllIgnoreCase", 1, i);
        AtLater(s, "AllIgnoringCase", 1, i);
        assert !At(s, "AllIgnoreCase", i + 1) && !At(s, "AllIgnoringCase", i + 1);
      }
      UnflagPrefix(b[1..], t);
      hide At, Flagged;
      assert !At(s, "AllIgnoreCase", 0) && !At(s, "AllIgnoringCase", 0);
      assert [s[0]] + (b[1..] + Unflag(t)) == b + Unflag(t);
      FlaggedStep(s);
    }
  }

  lemma FlaggedStep(s: string)
    requires s != "" && !At(s, "AllIgnoreCase", 0) && !At(s, "AllIgnoringCase", 0)
    ensures Flagged(s) == Flagged(s[1..]) && Unflag(s) == [s[0]] + Unflag(s[1..])
  {
  }

  function FlagText(all: Casing): string {
    match all case Minded => "" case Ignore => "AllIgnoreCase" case Ignoring => "AllIgnoringCase"
  }

  lemma FlagRead(all: Casing)
    ensures Unflag(FlagText(all)) == "" && Flagged(FlagText(all)) == (all != Minded)
  {
    match all
    case Minded =>
    case Ignore =>
      assert At("AllIgnoreCase", "AllIgnoreCase", 0);
      assert "AllIgnoreCase"[13..] == "";
    case Ignoring =>
      var t := "AllIgnoringCase";
      assert At(t, t, 0) && t[15..] == "";
      assert t[..13][8] == 'i' && "AllIgnoreCase"[8] == 'e';
      assert !At(t, "AllIgnoreCase", 0);
  }

  // ----- the predicate -----

  ghost predicate WellSpelled(s: Segment) { s.raw != "" && Longest(s) && PlainCase(s) && Clean(SegmentText(s)) }

  ghost predicate AllWellSpelled(segments: seq<Segment>) {
    forall i :: 0 <= i < |segments| ==> WellSpelled(segments[i])
  }

  ghost function Texts(segments: seq<Segment>): (r: seq<string>)
    requires AllWellSpelled(segments)
    ensures |r| == |segments|
  {
    if segments == [] then []
    else
      assert WellSpelled(segments[0]);
      [SegmentText(segments[0])] + Texts(segments[1..])
  }

  ghost function Meanings(segments: seq<Segment>, all: bool): seq<Condition>
    requires AllWellSpelled(segments)
  {
    if segments == [] then []
    else
      assert WellSpelled(segments[0]);
      [Meaning(segments[0], all)] + Meanings(segments[1..], all)
  }

  lemma {:induction false} TextsClean(segments: seq<Segment>)
    requires AllWellSpelled(segments)
    ensures AllClean(Texts(segments))
  {
    if segments != [] {
      assert WellSpelled(segments[0]);
      hide Clean, SegmentText, Longest, PlainCase;
      TextsClean(segments[1..]);
    }
  }

  lemma {:induction false} TextsMean(segments: seq<Segment>, all: bool)
    requires AllWellSpelled(segments)
    ensures ParseConditions(Texts(segments), all) == Meanings(segments, all)
  {
    if segments != [] {
      assert WellSpelled(segments[0]);
      ConditionRoundTrip(segments[0], all);
      assert SegmentText(segments[0]) != "";
      hide Clean, SegmentText, Longest, PlainCase, ParseCondition, Meaning;
      TextsMean(segments[1..], all);
      assert Texts(segments)[1..] == Texts(segments[1..]);
    }
  }

  ghost function PredicateText(segments: seq<Segment>, cs: seq<Combinator>, all: Casing): string
    requires AllWellSpelled(segments) && (|segments| == |cs| + 1 || (segments == [] && cs == []))
  {
    if segments == [] then "" else Chain(Texts(segments), cs) + FlagText(all)
  }

  lemma PredicateRoundTrip(segments: seq<Segment>, cs: seq<Combinator>, all: Casing)
    requires AllWellSpelled(segments) && |segments| == |cs| + 1
    ensures ParsePredicate(PredicateText(segments, cs, all)) == Predicate(Meanings(segments, all != Minded), cs)
  {
    hide Clean, WellSpelled, At, SplitAndOr, Chain, Unflag, Flagged, ParseConditions, Meanings, Texts, FlagText;
    TextsClean(segments);
    var texts := Texts(segments);
    var body, tail := Chain(texts, cs), FlagText(all);
    assert tail != "" ==> tail[0] == 'A' by { FlagStart(all); }
    forall i: nat | i < |body| ensures !At(body + tail, "AllIgnoreCase", i) && !At(body + tail, "AllIgnoringCase", i) {
      ChainLacks(texts, cs, tail, "AllIgnoreCase", i);
      ChainLacks(texts, cs, tail, "AllIgnoringCase", i);
    }
    UnflagPrefix(body, tail);
    FlagRead(all);
    assert body + "" == body;
    SplitChain(texts, cs);
    TextsMean(segments, all != Minded);
    ChainStart(texts, cs);
  }

  lemma FlagStart(all: Casing)
    ensures FlagText(all) != "" ==> FlagText(all)[0] == 'A'
  {
  }

  // ----- the order -----

  function DirectionWord(descending: bool): string { if descending then "Desc" else "Asc" }

  function DirectionsText(ds: seq<Direction>): string {
    if ds == [] then "" else ds[0].raw + DirectionWord(ds[0].descending) + DirectionsText(ds[1..])
  }

  /** A property text in which no direction word ends before another word. */
  ghost predicate Directionless(raw: string) {
    raw != "" && Capital(raw[0]) &&
      forall i: nat :: 1 <= i < |raw| ==> !LastWordAt(raw, "Desc", i) && !LastWordAt(raw, "Asc", i)
  }

  ghost predicate AllDirectionless(ds: seq<Direction>) { forall i :: 0 <= i < |ds| ==> Directionless(ds[i].raw) }

  function OrdersOf(ds: seq<Direction>): seq<Order> {
    if ds == [] then [] else [Order(PropertyPath(ds[0].raw), ds[0].descending)] + OrdersOf(ds[1..])
  }

  lemma {:induction false} OrdersSkipTo(text: string, i: nat, n: nat)
    requires i <= n <= |text| && forall j: nat :: i <= j < n ==> j == 0 || DirectionAt(text, j).None?
    ensures Orders(text, i) == Orders(text, n)
    decreases n - i
  {
    hide DirectionAt, PropertyPath;
    if i < n {
      OrdersSkipTo(text, i + 1, n);
    }
  }

  lemma NoDirection(raw: string, rest: string, i: nat)
    requires Directionless(raw) && 1 <= i < |raw| && (rest != "" ==> IsHump(rest[0]))
    ensures DirectionAt(raw + rest, i).None?
  {
    if LastWordAt(raw + rest, "Desc", i) {
      WordInFirst(raw, rest, "Desc", i);
    }
    if LastWordAt(raw + rest, "Asc", i) {
      WordInFirst(raw, rest, "Asc", i);
    }
  }

  lemma DirectionRead(raw: string, descending: bool, rest: string)
    requires rest != "" ==> IsHump(rest[0])
    ensures var w := DirectionWord(descending); DirectionAt(raw + w + rest, |raw|) == Some((descending, |w|))
  {
    var w := DirectionWord(descending);
    var t := raw + w + rest;
    assert t[|raw|..|raw| + |w|] == w;
    assert rest != "" ==> t[|raw| + |w|] == rest[0];
    AtChar(t, "Desc", |raw|, 0);
  }

  lemma FirstDirection(raw: string, descending: bool, rest: string)
    requires Directionless(raw) && (rest != "" ==> IsHump(rest[0]))
    ensures Orders(raw + DirectionWord(descending) + rest, 0) ==
      [Order(PropertyPath(raw), descending)] + Orders(rest, 0)
  {
    hide DirectionAt, PropertyPath, LastWordAt;
    var w := DirectionWord(descending);
    var t := raw + w + rest;
    Assoc(raw, w, rest);
    forall i: nat | 1 <= i < |raw| ensures DirectionAt(t, i).None? {
      NoDirection(raw, w + rest, i);
    }
    OrdersSkipTo(t, 0, |raw|);
    DirectionRead(raw, descending, rest);
    assert Slice(t, 0, |raw|) == raw && From(t, |raw| + |w|) == rest;
  }

  lemma {:induction false} NoOrders(bare: string)
    requires bare == "" || Directionless(bare)
    ensures Orders(bare, 0) == []
  {
    hide DirectionAt, PropertyPath, LastWordAt;
    forall i: nat | 1 <= i < |bare| ensures DirectionAt(bare, i).None? {
      assert bare + "" == bare;
      NoDirection(bare, "", i);
    }
    OrdersSkipTo(bare, 0, |bare|);
  }

  lemma DirectionsStart(ds: seq<Direction>, bare: string)
    requires AllDirectionless(ds) && (bare == "" || Directionless(bare))
    ensures DirectionsText(ds) + bare != "" ==> IsHump((DirectionsText(ds) + bare)[0])
  {
    if ds != [] {
      assert Directionless(ds[0].raw);
    }
  }

  lemma {:induction false} DirectionsRead(ds: seq<Direction>, bare: string)
    requires AllDirectionless(ds) && (bare == "" || Directionless(bare))
    ensures Orders(DirectionsText(ds) + bare, 0) == OrdersOf(ds)
  {
    hide Directionless, Orders, PropertyPath;
    if ds == [] {
      assert DirectionsText(ds) + bare == bare;
      NoOrders(bare);
    } else {
      DirectionsRead(ds[1..], bare);
      DirectionsStart(ds[1..], bare);
      var rest := DirectionsText(ds[1..]);
      Assoc4(ds[0].raw, DirectionWord(ds[0].descending), rest, bare);
      Assoc(ds[0].raw, DirectionWord(ds[0].descending), rest + bare);
      FirstDirection(ds[0].raw, ds[0].descending, rest + bare);
    }
  }

  /**
   * Explicit directions come back as written; a property with none is read as
   * ascending when it stands alone, and is dropped behind explicit ones.
   */
  lemma OrderByRoundTrip(ds: seq<Direction>, bare: string)
    requires AllDirectionless(ds) && (bare == "" || Directionless(bare))
    ensures ParseOrderBy(DirectionsText(ds) + bare) ==
      OrdersOf(ds) + (if ds == [] && bare != "" then [Order(PropertyPath(bare), false)] else [])
  {
    hide Orders, PropertyPath;
    DirectionsRead(ds, bare);
    if ds == [] {
      assert DirectionsText(ds) + bare == bare;
    } else {
      assert Directionless(ds[0].raw);
    }
  }

  // ----- the subject -----

  function Introducer(i: nat): (string, Kind) {
    if i == 0 then ("find", Query) else if i == 1 then ("read", Query) else if i == 2 then ("get", Query)
    else if i == 3 then ("query", Query) else if i == 4 then ("search", Query) else if i == 5 then ("stream", Query)
    else if i == 6 then ("exists", Exists) else if i == 7 then ("count", Count)
    else if i == 8 then ("delete", Delete) else ("remove", Delete)
  }

  function LimitText(limit: Option<Limit>): string {
    match limit
    case None => ""
    case Some(l) => (if l.top then "Top" else "First") + if l.bare then "" else Numerals.ToText(l.count)
  }

  /** Without a number, a limit is one. */
  predicate GoodLimit(limit: Option<Limit>) { limit.Some? && limit.value.bare ==> limit.value.count == 1 }

  predicate ZeroLimit(limit: Option<Limit>) { limit.Some? && limit.value.count == 0 }

  function DistinctText(distinct: bool): string { if distinct then "Distinct" else "" }

  function SubjectText(introducer: nat, distinct: bool, limit: Option<Limit>): string {
    Introducer(introducer).0 + (DistinctText(distinct) + LimitText(limit))
  }

  function SubjectOf(introducer: nat, distinct: bool, limit: Option<Limit>): Subject {
    var kind := Introducer(introducer).1;
    match limit
    case None => Subject(kind, distinct, None, false)
    case Some(l) => Subject(kind, distinct, Some(l.count), kind == Query && l.count == 1)
  }

  lemma OtherIntroducer(w: string, rest: string, v: string)
    requires |v| >= 3 && |w| >= 3 && (v[0] != w[0] || v[1] != w[1] || v[2] != w[2])
    ensures !At(w + rest, v, 0)
  {
    AtChar(w + rest, v, 0, 0);
    AtChar(w + rest, v, 0, 1);
    AtChar(w + rest, v, 0, 2);
  }

  lemma IntroducedIs(i: nat, rest: string)
    ensures Introduced(Introducer(i).0 + rest) == Some((Introducer(i).1, rest))
  {
    var w := Introducer(i).0;
    var t := w + rest;
    assert t[0..|w|] == w && t[|w|..] == rest;
    assert At(t, w, 0);
    hide At;
    if w != "find" { OtherIntroducer(w, rest, "find"); }
    if w != "read" { OtherIntroducer(w, rest, "read"); }
    if w != "get" { OtherIntroducer(w, rest, "get"); }
    if w != "query" { OtherIntroducer(w, rest, "query"); }
    if w != "search" { OtherIntroducer(w, rest, "search"); }
    if w != "stream" { OtherIntroducer(w, rest, "stream"); }
    if w != "exists" { OtherIntroducer(w, rest, "exists"); }
    if w != "count" { OtherIntroducer(w, rest, "count"); }
    if w != "delete" { OtherIntroducer(w, rest, "delete"); }
  }

  lemma LimitRead(digits: string, count: nat)
    requires digits == Numerals.ToText(count) || (digits == "" && count == 1)
    ensures Span(digits, IsDigit) == |digits| && LimitOf(digits) == count
  {
    Numerals.TextRoundTrip(count);
    if digits != "" {
      SpanAppend(digits, "", IsDigit);
      assert digits + "" == digits && digits[..|digits|] == digits;
    }
  }

  lemma LimitTokens(limit: Option<Limit>, subject: Subject)
    requires GoodLimit(limit)
    ensures SubjectTokens(LimitText(limit), subject) ==
      if ZeroLimit(limit) then InvalidLimit
      else Parsed(match limit
        case None => subject
        case Some(l) => subject.(limit := Some(l.count), singleResult := subject.singleResult || l.count == 1))
  {
    if limit.Some? {
      var l := limit.value;
      var digits := if l.bare then "" else Numerals.ToText(l.count);
      LimitRead(digits, l.count);
      hide LimitOf, Span, Numerals.ToText;
      var t := LimitText(limit);
      var n := if l.top then 3 else 5;
      LimitToken(l.top, digits);
      assert TokenAt(t) == Some((n + |digits|, Some(l.count)));
      hide TokenAt;
      assert t[n + |digits|..] == "";
    }
  }

  lemma LimitToken(top: bool, digits: string)
    ensures top ==> TokenAt("Top" + digits) == Some((3 + Span(digits, IsDigit), Some(LimitOf(digits))))
    ensures !top ==> TokenAt("First" + digits) == Some((5 + Span(digits, IsDigit), Some(LimitOf(digits))))
  {
    hide LimitOf, Span;
    var t := if top then "Top" + digits else "First" + digits;
    var n := if top then 3 else 5;
    assert t[n..] == digits && t[0..n] == if top then "Top" else "First";
    AtChar(t, "Distinct", 0, 0);
    AtChar(t, "First", 0, 0);
  }

  lemma DistinctToken(distinct: bool, rest: string, subject: Subject)
    ensures SubjectTokens(DistinctText(distinct) + rest, subject) ==
      SubjectTokens(rest, if distinct then subject.(distinct := true) else subject)
  {
    hide LimitOf, Span;
    var t := DistinctText(distinct) + rest;
    if distinct {
      assert t[0..8] == "Distinct" && t[8..] == rest;
    } else {
      assert t == rest;
    }
  }

  lemma SubjectRoundTrip(introducer: nat, distinct: bool, limit: Option<Limit>)
    requires GoodLimit(limit)
    ensures ParseSubject(SubjectText(introducer, distinct, limit)) ==
      if ZeroLimit(limit) then InvalidLimit else Parsed(SubjectOf(introducer, distinct, limit))
  {
    hide Introduced, SubjectTokens, Introducer, LimitText, DistinctText;
    var kind := Introducer(introducer).1;
    IntroducedIs(introducer, DistinctText(distinct) + LimitText(limit));
    DistinctToken(distinct, LimitText(limit), Subject(kind, false, None, false));
    LimitTokens(limit, Subject(kind, distinct, None, false));
  }

  lemma SubjectHasNoB(introducer: nat, distinct: bool, limit: Option<Limit>)
    ensures 'B' !in SubjectText(introducer, distinct, limit) && SubjectText(introducer, distinct, limit) != ""
  {
    hide Numerals.ToText;
    if limit.Some? {
      Numerals.TextRoundTrip(limit.value.count);
    }
    assert 'B' !in LimitText(limit) && 'B' !in DistinctText(distinct) && 'B' !in Introducer(introducer).0 &&
      Introducer(introducer).0 != "";
    hide LimitText, DistinctText, Introducer;
  }

  // ----- the whole name -----

  lemma {:induction false} FindWordIs(s: string, w: string, from: nat)
    ensures var i := FindWord(s, w, from);
      && (i == -1 || (from <= i < |s| && WordAt(s, w, i)))
      && forall j: nat :: from <= j < (if i == -1 then |s| else i) ==> !WordAt(s, w, j)
    decreases |s| - from
  {
    hide WordAt;
    if from < |s| && !WordAt(s, w, from) {
      FindWordIs(s, w, from + 1);
    }
  }

  lemma FindWordFirst(a: string, w: string, rest: string)
    requires w != "" && rest != "" && IsHump(rest[0])
    requires forall i: nat :: i < |a| ==> !At(a + (w + rest), w, i)
    ensures FindWord(a + (w + rest), w, 0) == |a|
  {
    hide FindWord;
    var t := a + (w + rest);
    FindWordIs(t, w, 0);
    assert t[|a|..|a| + |w|] == w && t[|a| + |w|] == rest[0];
    assert WordAt(t, w, |a|);
  }

  lemma FindBy(a: string, rest: string)
    requires 'B' !in a && rest != "" && IsHump(rest[0])
    ensures FindWord(a + ("By" + rest), "By", 0) == |a|
  {
    hide FindWord;
    var t := a + ("By" + rest);
    forall i: nat | i < |a| ensures !At(t, "By", i) {
      AtChar(t, "By", i, 0);
      assert t[i] == a[i];
    }
    FindWordFirst(a, "By", rest);
  }

  ghost predicate Valid(s: Spelling) {
    && GoodLimit(s.limit) && AllWellSpelled(s.segments) && AllDirectionless(s.directions)
    && (|s.segments| == |s.combinators| + 1 ||
        (s.segments == [] && s.combinators == [] && s.allCasing == Minded && s.directions != []))
  }

  function OrderByText(ds: seq<Direction>): string { if ds == [] then "" else "OrderBy" + DirectionsText(ds) }

  ghost function Render(s: Spelling): string
    requires Valid(s)
  {
    SubjectText(s.introducer, s.distinct, s.limit)
      + ("By" + (PredicateText(s.segments, s.combinators, s.allCasing) + OrderByText(s.directions)))
  }

  ghost function PlanOf(s: Spelling): Plan
    requires Valid(s)
  {
    Plan(
      SubjectOf(s.introducer, s.distinct, s.limit),
      Predicate(Meanings(s.segments, s.allCasing != Minded), s.combinators), OrdersOf(s.directions))
  }

  /** No `OrderBy` starts in the predicate. */
  lemma PredicateLacks(segments: seq<Segment>, cs: seq<Combinator>, all: Casing, rest: string, i: nat)
    requires AllWellSpelled(segments) && |segments| == |cs| + 1 && (rest != "" ==> rest[0] == 'O')
    requires i < |PredicateText(segments, cs, all)|
    ensures !At(PredicateText(segments, cs, all) + rest, "OrderBy", i)
  {
    hide Texts, Chain, At, WellSpelled;
    TextsClean(segments);
    var texts, flag := Texts(segments), FlagText(all);
    var body := Chain(texts, cs);
    Assoc(body, flag, rest);
    assert flag + rest != "" ==> (flag + rest)[0] == 'A' || (flag + rest)[0] == 'O';
    if i < |body| {
      ChainLacks(texts, cs, flag + rest, "OrderBy", i);
    } else {
      AtRest(body, flag + rest, "OrderBy", i - |body|);
      FlagLacks(all, rest, i - |body|);
    }
  }

  lemma FlagLacks(all: Casing, rest: string, i: nat)
    requires i < |FlagText(all)|
    ensures !At(FlagText(all) + rest, "OrderBy", i)
  {
    var t := FlagText(all) + rest;
    AtChar(t, "OrderBy", i, 0);
    assert t[i] == FlagText(all)[i];
  }

  lemma OrderBySplit(segments: seq<Segment>, cs: seq<Combinator>, all: Casing, ds: seq<Direction>)
    requires AllWellSpelled(segments) && (|segments| == |cs| + 1 || (segments == [] && cs == []))
    requires AllDirectionless(ds)
    ensures SplitOrderBy(PredicateText(segments, cs, all) + OrderByText(ds)) ==
      (PredicateText(segments, cs, all), OrdersOf(ds))
  {
    hide FindWord, PredicateText, DirectionsText, ParseOrderBy, OrdersOf, At, WellSpelled, Directionless;
    var p := PredicateText(segments, cs, all);
    var rest := OrderByText(ds);
    var t := p + rest;
    if segments == [] {
      EmptyPredicate(cs, all);
    }
    forall i: nat | i < |p| ensures !At(t, "OrderBy", i) {
      PredicateLacks(segments, cs, all, rest, i);
    }
    if ds == [] {
      assert t == p;
      FindWordIs(t, "OrderBy", 0);
      assert OrdersOf(ds) == [] by { NoDirections(); }
      WordIsAt(t, "OrderBy");
    } else {
      DirectionsStart(ds, "");
      DirectionsNonEmpty(ds);
      assert DirectionsText(ds) + "" == DirectionsText(ds);
      FindWordFirst(p, "OrderBy", DirectionsText(ds));
      OrderByRoundTrip(ds, "");
      NothingLeft(OrdersOf(ds));
      assert t[..|p|] == p && t[|p| + 7..] == DirectionsText(ds);
    }
  }

  lemma EmptyPredicate(cs: seq<Combinator>, all: Casing)
    requires cs == []
    ensures PredicateText([], cs, all) == ""
  {
  }

  lemma NoDirections()
    ensures OrdersOf([]) == []
  {
  }

  lemma DirectionsNonEmpty(ds: seq<Direction>)
    requires ds != []
    ensures DirectionsText(ds) != ""
  {
  }

  lemma WordIsAt(t: string, w: string)
    requires forall i: nat :: i < |t| ==> !At(t, w, i)
    ensures FindWord(t, w, 0) == -1
  {
    hide FindWord;
    FindWordIs(t, w, 0);
  }

  lemma BodyStart(s: Spelling)
    requires Valid(s)
    ensures var t := PredicateText(s.segments, s.combinators, s.allCasing) + OrderByText(s.directions);
      t != "" && IsHump(t[0])
  {
    hide Chain, Texts, WellSpelled;
    if s.segments != [] {
      TextsClean(s.segments);
      ChainStart(Texts(s.segments), s.combinators);
    }
  }

  /** Any plan so written parses back to itself, and one with a limit of zero is refused. */
  lemma RoundTrip(s: Spelling)
    requires Valid(s)
    ensures ParseName(Render(s)) == if ZeroLimit(s.limit) then InvalidLimit else Parsed(PlanOf(s))
  {
    hide FindWord, ParseSubject, SplitOrderBy, ParsePredicate, PredicateText, OrderByText, OrdersOf, Meanings,
      SubjectText, SubjectOf;
    var subject := SubjectText(s.introducer, s.distinct, s.limit);
    var text := PredicateText(s.segments, s.combinators, s.allCasing);
    var body := text + OrderByText(s.directions);
    SubjectHasNoB(s.introducer, s.distinct, s.limit);
    BodyStart(s);
    FindBy(subject, body);
    Around(subject, body);
    SubjectRoundTrip(s.introducer, s.distinct, s.limit);
    OrderBySplit(s.segments, s.combinators, s.allCasing, s.directions);
    if s.segments == [] {
      NoPredicate(s);
    } else {
      PredicateRoundTrip(s.segments, s.combinators, s.allCasing);
    }
  }

  lemma Around(a: string, b: string)
    ensures (a + ("By" + b))[..|a|] == a && (a + ("By" + b))[|a| + 2..] == b
  {
  }

  lemma NoPredicate(s: Spelling)
    requires Valid(s) && s.segments == []
    ensures ParsePredicate(PredicateText(s.segments, s.combinators, s.allCasing)) ==
      Predicate(Meanings(s.segments, s.allCasing != Minded), s.combinators)
  {
  }

  // ----- which names are derived queries -----

  /** The first `By` in front of a capital letter or an underscore. */
  ghost predicate FirstBy(name: string, i: nat) {
    && i + 2 < |name| && name[i] == 'B' && name[i + 1] == 'y' && Capital(name[i + 2])
    && forall j :: 0 <= j < i ==> !(name[j] == 'B' && name[j + 1] == 'y' && Capital(name[j + 2]))
  }

  /** The text starts with one of the words that introduce a query. */
  predicate Introduces(s: string) {
    || "find" <= s || "read" <= s || "get" <= s || "query" <= s || "search" <= s || "stream" <= s
    || "exists" <= s || "count" <= s || "delete" <= s || "remove" <= s
  }

  lemma ByAt(name: string, i: nat)
    ensures WordAt(name, "By", i) <==> i + 2 < |name| && name[i] == 'B' && name[i + 1] == 'y' && Capital(name[i + 2])
  {
    if i + 2 <= |name| {
      var t := name[i..i + 2];
      assert t[0] == name[i] && t[1] == name[i + 1];
      assert t == "By" <==> name[i] == 'B' && name[i + 1] == 'y';
    }
  }

  lemma AtFront(s: string, w: string)
    ensures At(s, w, 0) <==> w <= s
  {
    if |w| <= |s| {
      assert s[0..|w|] == s[..|w|];
    }
  }

  lemma IntroducedExactly(s: string)
    ensures Introduced(s).Some? <==> Introduces(s)
  {
    hide At;
    AtFront(s, "find");
    AtFront(s, "read");
    AtFront(s, "get");
    AtFront(s, "query");
    AtFront(s, "search");
    AtFront(s, "stream");
    AtFront(s, "exists");
    AtFront(s, "count");
    AtFront(s, "delete");
    AtFront(s, "remove");
  }

  lemma {:induction false} TokensParsed(rest: string, subject: Subject)
    ensures !SubjectTokens(rest, subject).NotDerivable?
    decreases |rest|
  {
    hide TokenAt;
    if rest != "" {
      match TokenAt(rest)
      case None => TokensParsed(rest[1..], subject);
      case Some((length, None)) => TokensParsed(rest[length..], subject.(distinct := true));
      case Some((length, Some(n))) =>
        if n >= 1 {
          TokensParsed(
            rest[length..], subject.(limit := Some(n), singleResult := subject.singleResult || n == 1));
        }
    }
  }

  /** A name is a derived query exactly when a word that introduces one starts it and a first `By` follows later. */
  lemma DerivableExactly(name: string)
    ensures !ParseName(name).NotDerivable? <==> exists i: nat :: FirstBy(name, i) && i > 0 && Introduces(name[..i])
  {
    hide ParsePredicate, SplitOrderBy, FindWord, WordAt, Introduced, Introduces, SubjectTokens;
    var i := FindWord(name, "By", 0);
    FindWordIs(name, "By", 0);
    if i >= 0 {
      FoundFirst(name, i);
      ByAt(name, i);
      IntroducedExactly(name[..i]);
      if Introduced(name[..i]).Some? {
        var (kind, rest) := Introduced(name[..i]).value;
        TokensParsed(rest, Subject(kind, false, None, false));
      }
    }
    forall j: nat | FirstBy(name, j) ensures i == j {
      ByAt(name, j);
      if i >= 0 {
        FoundFirst(name, i);
        ByAt(name, i);
      }
    }
  }

  lemma FoundFirst(name: string, i: nat)
    requires WordAt(name, "By", i) && forall j: nat :: j < i ==> !WordAt(name, "By", j)
    ensures FirstBy(name, i)
  {
    hide WordAt;
    ByAt(name, i);
    forall j: nat | j < i ensures !(name[j] == 'B' && name[j + 1] == 'y' && Capital(name[j + 2])) {
      ByAt(name, j);
    }
  }

  // ----- what is lost -----

  /**
   * A predicate has one connective less than conditions exactly when no
   * segment is empty: the connective beside an empty segment is kept.
   */
  lemma {:induction false} ConnectivesMatch(segments: seq<string>, all: bool)
    ensures |ParseConditions(segments, all)| <= |segments|
    ensures |ParseConditions(segments, all)| == |segments| <==> "" !in segments
  {
    hide ParseCondition;
    if segments != [] {
      ConnectivesMatch(segments[1..], all);
    }
  }

  lemma {:induction false} OneMoreSegment(text: string)
    ensures |SplitAndOr(text).segments| == |SplitAndOr(text).combinators| + 1
    decreases |text|
  {
    hide FindConnective, Behind, From, Slice, ConnectiveAt;
    SplitUnfold(text);
    BehindFits(text, 0);
    var i := FindConnective(text, 0);
    if i >= 0 {
      OneMoreSegment(From(text, Behind(text, i)));
    }
  }

  lemma PredicateAligned(text: string)
    requires text != ""
    ensures var p := ParsePredicate(text);
      |p.conditions| == |p.combinators| + 1 <==> "" !in SplitAndOr(Unflag(text)).segments
  {
    hide SplitAndOr, Unflag, Flagged, ParseConditions;
    OneMoreSegment(Unflag(text));
    ConnectivesMatch(SplitAndOr(Unflag(text)).segments, Flagged(text));
  }

  // ----- property paths -----

  /** Path parts that start with a lower-case letter and hold no underscore. */
  ghost predicate Parts(parts: seq<string>) {
    forall i :: 0 <= i < |parts| ==> parts[i] != "" && IsLower(parts[i][0]) && '_' !in parts[i]
  }

  function Capitalized(parts: seq<string>): seq<string> {
    if parts == [] then [] else [Capitalize(parts[0])] + Capitalized(parts[1..])
  }

  lemma CapitalRoundTrip(p: string)
    requires p != "" && IsLower(p[0]) && '_' !in p
    ensures Uncapitalize(Capitalize(p)) == p && Capitalize(p) != "" && '_' !in Capitalize(p)
  {
    var c := Capitalize(p);
    assert c[1..] == p[1..] && IsUpper(c[0]) && c[0] != '_';
    assert forall k :: 0 <= k < |p| ==> p[k] != '_';
    assert forall k :: 1 <= k < |p| ==> c[k] == p[k];
  }

  lemma {:induction false} PartsRead(parts: seq<string>)
    requires Parts(parts) && parts != []
    ensures Split(Join(Capitalized(parts), "_"), '_') == Capitalized(parts) && PathParts(Capitalized(parts)) == parts
  {
    hide Uncapitalize, Capitalize, Split;
    CapitalRoundTrip(parts[0]);
    if |parts| == 1 {
      SplitNone(Capitalize(parts[0]), '_');
      assert Capitalized(parts) == [Capitalize(parts[0])];
      assert parts == [parts[0]];
    } else {
      PartsRead(parts[1..]);
      var rest := Capitalized(parts[1..]);
      assert rest != [] && Capitalized(parts)[1..] == rest;
      SplitHead(Capitalize(parts[0]), '_', Join(rest, "_"));
      assert ['_'] == "_";
      assert parts == [parts[0]] + parts[1..];
    }
  }

  /** A path written with capitals and underscores is read back as the dotted path. */
  lemma PathRoundTrip(parts: seq<string>)
    requires Parts(parts) && parts != []
    ensures PropertyPath(Join(Capitalized(parts), "_")) == Join(parts, ".")
  {
    hide Join, Split, PathParts, Capitalized;
    PartsRead(parts);
  }
}
