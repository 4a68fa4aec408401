/**
 * Cursor pagination over an array: cursors that carry an offset, the window
 * cut out by `after`, `before`, `first` and `last`, and the pagination
 * algorithm of the Relay Cursor Connections specification (section 4.4).
 */
module Connection {
  import opened Text
  import Numerals

  // ----- cursors -----

  /** A cursor: base64 of a text, or something base64 decoding rejects. */
  datatype Cursor = Encoded(text: string) | Garbage

  const PREFIX := "arrayconnection:"

  function OffsetToCursor(index: nat): Cursor { Encoded(PREFIX + Numerals.ToText(index)) }

  /** `Number.parseInt(s, 10)`: white space, a sign, as many digits as there are; `None` is not-a-number. */
  function ParseInt(s: string): Option<int> {
    var t := TrimStart(s);
    if t != "" && (t[0] == '-' || t[0] == '+') then
      match ParseDigits(t[1..]) case Some(n) => Some(if t[0] == '-' then 0 - n else n) case None => None
    else match ParseDigits(t) case Some(n) => Some(n) case None => None
  }

  function ParseDigits(s: string): Option<nat> {
    var n := Span(s, IsDigit);
    if n == 0 then None else Some(Numerals.FromDigits(s[..n]))
  }

  /** `cursorToOffset`: -1 for another cursor, an error for one that does not decode. */
  function CursorToOffset(cursor: Cursor): Option<int> {
    match cursor
    case Garbage => None
    case Encoded(text) =>
      if !(PREFIX <= text) then Some(-1)
      else match ParseInt(text[|PREFIX|..]) case Some(n) => Some(n) case None => Some(-1)
  }

  /** The cursor of an index reads back as that index. */
  lemma CursorRoundTrip(index: nat)
    ensures CursorToOffset(OffsetToCursor(index)) == Some(index)
  {
    hide Span;
    var digits := Numerals.ToText(index);
    Numerals.TextRoundTrip(index);
    SpanAppend(digits, "", IsDigit);
    assert digits + "" == digits && digits[..|digits|] == digits;
    assert (PREFIX + digits)[|PREFIX|..] == digits;
    assert IsDigit(digits[0]);
    assert TrimStart(digits) == digits;
  }

  /** A signed offset reads with its sign: a negative one is then taken for no cursor at all. */
  lemma SignedOffset(index: nat)
    ensures CursorToOffset(Encoded(PREFIX + ("-" + Numerals.ToText(index)))) == Some(0 - index)
    ensures CursorToOffset(Encoded(PREFIX + ("+" + Numerals.ToText(index)))) == Some(index)
  {
    hide Span;
    var digits := Numerals.ToText(index);
    Numerals.TextRoundTrip(index);
    SpanAppend(digits, "", IsDigit);
    assert digits + "" == digits && digits[..|digits|] == digits;
    var minus, plus := "-" + digits, "+" + digits;
    assert (PREFIX + minus)[|PREFIX|..] == minus && (PREFIX + plus)[|PREFIX|..] == plus;
    assert minus[1..] == digits && plus[1..] == digits;
    assert TrimStart(minus) == minus && TrimStart(plus) == plus;
  }

  /** Different indexes have different cursors. */
  lemma CursorsDistinct(i: nat, j: nat)
    ensures OffsetToCursor(i) == OffsetToCursor(j) <==> i == j
  {
    hide CursorToOffset, OffsetToCursor;
    CursorRoundTrip(i);
    CursorRoundTrip(j);
  }

  // ----- pages -----

  datatype Args = Args(first: Option<int>, after: Option<Cursor>, last: Option<int>, before: Option<Cursor>)

  datatype Edge<T> = Edge(node: T, cursor: Cursor)

  datatype PageInfo = PageInfo(
    hasNextPage: bool, hasPreviousPage: bool, startCursor: Option<Cursor>, endCursor: Option<Cursor>)

  datatype Connection<T> = Connection(edges: seq<Edge<T>>, totalCount: nat, pageInfo: PageInfo)

  datatype Result<T> = Page(page: Connection<T>) | InvalidCursor | NegativeFirst | NegativeLast

  function Min(a: int, b: int): int { if a < b then a else b }

  function Max(a: int, b: int): int { if a > b then a else b }

  /** The whole array's edges. */
  function AllEdges<T>(items: seq<T>): (r: seq<Edge<T>>)
    ensures |r| == |items| && forall i :: 0 <= i < |items| ==> r[i] == Edge(items[i], OffsetToCursor(i))
  {
    seq(|items|, i requires 0 <= i < |items| => Edge(items[i], OffsetToCursor(i)))
  }

  /** The window before `first` and `last`, from the offsets the cursors read as. */
  function WindowStart(total: nat, after: Option<int>): nat {
    if after.Some? && after.value >= 0 then Min(after.value + 1, total) else 0
  }

  function WindowEnd(total: nat, start: nat, before: Option<int>): nat {
    var end := if before.Some? && before.value >= 0 then Min(total, before.value) else total;
    Max(end, start)
  }

  function Offset(cursor: Option<Cursor>): Option<int> {
    match cursor case None => Some(-1) case Some(c) => CursorToOffset(c)
  }

  /** Where the window lies once `first` and `last` have trimmed it. */
  function Trimmed(s: nat, e: nat, first: Option<int>, last: Option<int>): (r: (nat, nat))
    requires s <= e && (first.Some? ==> first.value >= 0) && (last.Some? ==> last.value >= 0)
    ensures s <= r.0 <= r.1 <= e
  {
    var end := if first.Some? then Min(e, s + first.value) else e;
    (if last.Some? then Max(s, end - last.value) else s, end)
  }

  /** The window of all four arguments. */
  function Window(total: nat, args: Args): (nat, nat)
    requires Offset(args.after).Some? && Offset(args.before).Some?
    requires (args.first.Some? ==> args.first.value >= 0) && (args.last.Some? ==> args.last.value >= 0)
  {
    var s := WindowStart(total, Offset(args.after));
    Trimmed(s, WindowEnd(total, s, Offset(args.before)), args.first, args.last)
  }

  /** The page made of the edges from `start` to `end`. */
  ghost predicate PageOf<T>(items: seq<T>, start: nat, end: nat, page: Connection<T>) {
    && start <= end <= |items|
    && page.edges == AllEdges(items)[start..end] && page.totalCount == |items|
    && page.pageInfo == PageInfo(end < |items|, start > 0,
                                 if start < end then Some(OffsetToCursor(start)) else None,
                                 if start < end then Some(OffsetToCursor(end - 1)) else None)
  }

  /** `connectionFromArray`: a contiguous page of the array, and which error comes first. */
  method ConnectionFromArray<T>(items: seq<T>, args: Args) returns (r: Result<T>)
    ensures r.InvalidCursor? <==> Offset(args.after).None? || Offset(args.before).None?
    ensures r.NegativeFirst? <==>
      Offset(args.after).Some? && Offset(args.before).Some? && args.first.Some? && args.first.value < 0
    ensures r.NegativeLast? <==>
      Offset(args.after).Some? && Offset(args.before).Some? && (args.first.Some? ==> args.first.value >= 0) &&
      args.last.Some? && args.last.value < 0
    ensures r.Page? ==> PageOf(items, Window(|items|, args).0, Window(|items|, args).1, r.page)
  {
    hide CursorToOffset, OffsetToCursor, PageOf;
    var total := |items|;
    var start, end := 0, total;
    if args.after.Some? {
      var offset := CursorToOffset(args.after.value);
      if offset.None? {
        return InvalidCursor;
      }
      if offset.value >= 0 {
        start := Max(start, Min(offset.value + 1, total));
      }
    }
    if args.before.Some? {
      var offset := CursorToOffset(args.before.value);
      if offset.None? {
        return InvalidCursor;
      }
      if offset.value >= 0 {
        end := Min(end, Max(offset.value, 0));
      }
    }
    if end < start {
      end := start;
    }
    if args.first.Some? {
      if args.first.value < 0 {
        return NegativeFirst;
      }
      end := Min(end, start + args.first.value);
    }
    if args.last.Some? {
      if args.last.value < 0 {
        return NegativeLast;
      }
      start := Max(start, end - args.last.value);
    }
    var page := MakePage(items, start, end);
    return Page(page);
  }

  method MakePage<T>(items: seq<T>, start: nat, end: nat) returns (page: Connection<T>)
    requires start <= end <= |items|
    ensures PageOf(items, start, end, page)
  {
    hide OffsetToCursor;
    var total := |items|;
    var edges := AllEdges(items)[start..end];
    var first := if edges != [] then Some(edges[0].cursor) else None;
    var last := if edges != [] then Some(edges[|edges| - 1].cursor) else None;
    page := Connection(edges, total, PageInfo(end < total, start > 0, first, last));
  }

  // ----- the specification's algorithm -----

  /** The position of the edge with a cursor, or the length when there is none. */
  function EdgeIndex<T(!new)>(edges: seq<Edge<T>>, cursor: Cursor): (n: nat)
    ensures n <= |edges| && (n < |edges| ==> edges[n].cursor == cursor)
    ensures forall i :: 0 <= i < n ==> edges[i].cursor != cursor
  {
    if edges == [] || edges[0].cursor == cursor then 0 else 1 + EdgeIndex(edges[1..], cursor)
  }

  /** ApplyCursorsToEdges. */
  function ApplyCursors<T(!new)>(edges: seq<Edge<T>>, before: Option<Cursor>, after: Option<Cursor>): seq<Edge<T>> {
    var kept :=
      if after.Some? && EdgeIndex(edges, after.value) < |edges| then edges[EdgeIndex(edges, after.value) + 1..]
      else edges;
    if before.Some? && EdgeIndex(kept, before.value) < |kept| then kept[..EdgeIndex(kept, before.value)] else kept
  }

  /** EdgesToReturn, for arguments that are not negative. */
  function EdgesToReturn<T(!new)>(edges: seq<Edge<T>>, args: Args): seq<Edge<T>>
    requires (args.first.Some? ==> args.first.value >= 0) && (args.last.Some? ==> args.last.value >= 0)
  {
    TrimEdges(ApplyCursors(edges, args.before, args.after), args.first, args.last)
  }

  function TrimEdges<T>(kept: seq<T>, first: Option<int>, last: Option<int>): seq<T>
    requires (first.Some? ==> first.value >= 0) && (last.Some? ==> last.value >= 0)
  {
    var head := if first.Some? && |kept| > first.value then kept[..first.value] else kept;
    if last.Some? && |head| > last.value then head[|head| - last.value..] else head
  }

  lemma IndexOf<T(!new)>(items: seq<T>, from: nat, i: nat)
    requires from <= |items| && i < |items|
    ensures EdgeIndex(AllEdges(items)[from..], OffsetToCursor(i)) == if i < from then |items| - from else i - from
  {
    hide OffsetToCursor;
    var edges := AllEdges(items)[from..];
    var n := EdgeIndex(edges, OffsetToCursor(i));
    forall k | 0 <= k < |edges| ensures edges[k].cursor == OffsetToCursor(i) <==> k + from == i {
      CursorsDistinct(i, k + from);
      assert edges[k] == AllEdges(items)[k + from];
    }
    assert i >= from ==> edges[i - from].cursor == OffsetToCursor(i);
  }

  function IndexCursor(index: Option<nat>): Option<Cursor> {
    if index.Some? then Some(OffsetToCursor(index.value)) else None
  }

  /** Cursor arguments made from indexes of items, or none. */
  function CursorArgs(first: Option<int>, after: Option<nat>, last: Option<int>, before: Option<nat>): Args {
    Args(first, IndexCursor(after), last, IndexCursor(before))
  }

  /** The window the specification keeps: `before` counts only behind `after`. */
  lemma KeptWindow<T(!new)>(items: seq<T>, after: Option<nat>, before: Option<nat>)
    requires (after.Some? ==> after.value < |items|) && (before.Some? ==> before.value < |items|)
    ensures var s := if after.Some? then after.value + 1 else 0;
      var e := if before.Some? && before.value >= s then before.value else |items|;
      ApplyCursors(AllEdges(items), CursorArgs(None, after, None, before).before,
        CursorArgs(None, after, None, before).after) == AllEdges(items)[s..e]
  {
    hide EdgeIndex, OffsetToCursor;
    var edges := AllEdges(items);
    assert edges[0..] == edges;
    if after.Some? {
      IndexOf(items, 0, after.value);
    }
    var s := if after.Some? then after.value + 1 else 0;
    if before.Some? {
      IndexOf(items, s, before.value);
    }
  }

  lemma Trims<T>(edges: seq<T>, s: nat, e: nat, first: Option<int>, last: Option<int>)
    requires s <= e <= |edges| && (first.Some? ==> first.value >= 0) && (last.Some? ==> last.value >= 0)
    ensures TrimEdges(edges[s..e], first, last) == edges[Trimmed(s, e, first, last).0..Trimmed(s, e, first, last).1]
  {
    var kept := edges[s..e];
    var head := if first.Some? && |kept| > first.value then kept[..first.value] else kept;
    var end := if first.Some? then Min(e, s + first.value) else e;
    assert head == edges[s..end];
  }

  /**
   * On cursors of existing items the page is the specification's, unless
   * `before` is not behind `after` and the specification, which then ignores
   * `before`, has something to return.
   */
  lemma SameAsRelay<T(!new)>(
      items: seq<T>, first: Option<int>, after: Option<nat>, last: Option<int>, before: Option<nat>,
      page: Connection<T>)
    requires (after.Some? ==> after.value < |items|) && (before.Some? ==> before.value < |items|)
    requires (first.Some? ==> first.value >= 0) && (last.Some? ==> last.value >= 0)
    requires var args := CursorArgs(first, after, last, before);
      Offset(args.after).Some? && Offset(args.before).Some? &&
        PageOf(items, Window(|items|, args).0, Window(|items|, args).1, page)
    ensures page.edges == EdgesToReturn(AllEdges(items), CursorArgs(first, after, last, before)) <==>
      (after.Some? && before.Some? ==>
        after.value < before.value || after.value + 1 == |items| || first == Some(0) || last == Some(0))
  {
    var args := CursorArgs(first, after, last, before);
    OwnWindow(|items|, first, after, last, before);
    var s := if after.Some? then after.value + 1 else 0;
    var e := if before.Some? && before.value >= s then before.value else |items|;
    var own := if before.Some? then Max(before.value, s) else |items|;
    assert page.edges == AllEdges(items)[Trimmed(s, own, first, last).0..Trimmed(s, own, first, last).1];
    Returned(items, first, after, last, before);
    hide *;
    TrimmedSame(AllEdges(items), s, own, e, first, last);
  }

  lemma OwnWindow(total: nat, first: Option<int>, after: Option<nat>, last: Option<int>, before: Option<nat>)
    requires (after.Some? ==> after.value < total) && (before.Some? ==> before.value < total)
    requires (first.Some? ==> first.value >= 0) && (last.Some? ==> last.value >= 0)
    ensures var args := CursorArgs(first, after, last, before);
      var s := if after.Some? then after.value + 1 else 0;
      && Offset(args.after).Some? && Offset(args.before).Some?
      && Window(total, args) == Trimmed(s, if before.Some? then Max(before.value, s) else total, first, last)
  {
    hide CursorToOffset, OffsetToCursor;
    if after.Some? { CursorRoundTrip(after.value); }
    if before.Some? { CursorRoundTrip(before.value); }
  }

  lemma Returned<T(!new)>(items: seq<T>, first: Option<int>, after: Option<nat>, last: Option<int>, before: Option<nat>)
    requires (after.Some? ==> after.value < |items|) && (before.Some? ==> before.value < |items|)
    requires (first.Some? ==> first.value >= 0) && (last.Some? ==> last.value >= 0)
    ensures var s := if after.Some? then after.value + 1 else 0;
      var e := if before.Some? && before.value >= s then before.value else |items|;
      EdgesToReturn(AllEdges(items), CursorArgs(first, after, last, before)) ==
        AllEdges(items)[Trimmed(s, e, first, last).0..Trimmed(s, e, first, last).1]
  {
    hide ApplyCursors, OffsetToCursor, Trimmed, AllEdges, TrimEdges;
    KeptWindow(items, after, before);
    var s := if after.Some? then after.value + 1 else 0;
    var e := if before.Some? && before.value >= s then before.value else |items|;
    Trims(AllEdges(items), s, e, first, last);
  }

  /** An empty window and the rest of the edges trim to the same exactly when there is no rest or it is trimmed away. */
  lemma TrimmedSame<T>(edges: seq<T>, s: nat, own: nat, e: nat, first: Option<int>, last: Option<int>)
    requires s <= own <= |edges| && s <= e <= |edges| && (own == e || (own == s && e == |edges|))
    requires (first.Some? ==> first.value >= 0) && (last.Some? ==> last.value >= 0)
    ensures var (a, b) := Trimmed(s, own, first, last); var (c, d) := Trimmed(s, e, first, last);
      edges[a..b] == edges[c..d] <==> own == e || s == |edges| || first == Some(0) || last == Some(0)
  {
    var (a, b) := Trimmed(s, own, first, last);
    var (c, d) := Trimmed(s, e, first, last);
    assert own == s ==> a == b && edges[a..b] == [];
    assert |edges[c..d]| == d - c;
  }

  // ----- paging through -----

  function Nodes<T>(edges: seq<Edge<T>>): (r: seq<T>)
    ensures |r| == |edges| && forall i :: 0 <= i < |edges| ==> r[i] == edges[i].node
  {
    seq(|edges|, i requires 0 <= i < |edges| => edges[i].node)
  }

  lemma PageNodes<T>(items: seq<T>, start: nat, end: nat, page: Connection<T>)
    requires PageOf(items, start, end, page)
    ensures Nodes(page.edges) == items[start..end]
    ensures page.pageInfo.hasNextPage == (end < |items|) && page.pageInfo.hasPreviousPage == (start > 0)
    ensures start < end ==>
      page.pageInfo.startCursor == Some(OffsetToCursor(start)) &&
      page.pageInfo.endCursor == Some(OffsetToCursor(end - 1))
  {
    hide OffsetToCursor;
    assert forall i :: 0 <= i < end - start ==> page.edges[i] == AllEdges(items)[start + i];
  }

  /** The page of `n` behind the first `k` items. */
  method NextPage<T>(items: seq<T>, n: int, k: nat, after: Option<Cursor>) returns (page: Connection<T>)
    requires n >= 1 && k <= |items| && after == if k == 0 then None else Some(OffsetToCursor(k - 1))
    ensures PageOf(items, k, Min(|items|, k + n), page)
  {
    hide OffsetToCursor, CursorToOffset, PageOf;
    if k > 0 {
      CursorRoundTrip(k - 1);
    }
    var r := ConnectionFromArray(items, Args(Some(n), after, None, None));
    return r.page;
  }

  /** The page of `n` in front of the last items from `k` on. */
  method PreviousPage<T>(items: seq<T>, n: int, k: nat, before: Option<Cursor>) returns (page: Connection<T>)
    requires n >= 1 && k <= |items| && before == if k == |items| then None else Some(OffsetToCursor(k))
    ensures PageOf(items, Max(0, k - n), k, page)
  {
    hide OffsetToCursor, CursorToOffset, PageOf;
    if k < |items| {
      CursorRoundTrip(k);
    }
    var r := ConnectionFromArray(items, Args(None, None, Some(n), before));
    return r.page;
  }

  /** Forward from each end cursor until there is no next page: every item once, in order. */
  method PageForward<T>(items: seq<T>, n: int) returns (seen: seq<T>)
    requires n >= 1
    ensures seen == items
  {
    hide OffsetToCursor, Nodes, PageOf;
    seen := [];
    var after: Option<Cursor> := None;
    var more := true;
    var k := 0;
    while more
      invariant k <= |items| && seen == items[..k] && (!more ==> k == |items|)
      invariant more ==> after == if k == 0 then None else Some(OffsetToCursor(k - 1))
      invariant more && k > 0 ==> k < |items|
      decreases |items| - k, more
    {
      var page := NextPage(items, n, k, after);
      var end := Min(|items|, k + n);
      PageNodes(items, k, end, page);
      assert items[..k] + items[k..end] == items[..end];
      seen := seen + Nodes(page.edges);
      after := page.pageInfo.endCursor;
      more := page.pageInfo.hasNextPage;
      k := end;
    }
    assert items[..|items|] == items;
  }

  /** Backward from each start cursor until there is no previous page: the same. */
  method PageBackward<T>(items: seq<T>, n: int) returns (seen: seq<T>)
    requires n >= 1
    ensures seen == items
  {
    hide OffsetToCursor, Nodes, PageOf;
    seen := [];
    var before: Option<Cursor> := None;
    var more := true;
    var k := |items|;
    while more
      invariant 0 <= k <= |items| && seen == items[k..] && (!more ==> k == 0)
      invariant more ==> before == if k == |items| then None else Some(OffsetToCursor(k))
      invariant more && k < |items| ==> k > 0
      decreases k, more
    {
      var page := PreviousPage(items, n, k, before);
      var start := Max(0, k - n);
      PageNodes(items, start, k, page);
      assert items[start..k] + items[k..] == items[start..];
      seen := Nodes(page.edges) + seen;
      before := page.pageInfo.startCursor;
      more := page.pageInfo.hasPreviousPage;
      k := start;
    }
  }
}
