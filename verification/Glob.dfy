/** Shell patterns: the byte-level matcher of sh/expand.c and the meaning it implements.

    A C string is a `string` without its terminating NUL, so index |s| is where the code
    reads '\0'.  The locale is single-byte; collation and character classes, which the
    code takes from the C library, are parameters. */
module Glob {
  import opened Wrappers

  const CTLESC: char := '\U{00C0}'

  /** The library calls patmatch makes: wcscoll on two one-character strings and iswctype. */
  datatype Locale = Locale(collate: (char, char) -> int, isClass: (string, char) -> bool)

  // ---------------------------------------------------------------- reference meaning

  datatype Item = Single(c: char) | Range(lo: char, hi: char) | Class(name: string)

  datatype Elem = Star | Any | Lit(c: char) | Bracket(negated: bool, items: seq<Item>)

  predicate ItemHas(loc: Locale, it: Item, c: char) {
    match it
    case Single(d) => c == d
    case Range(lo, hi) => loc.collate(c, lo) >= 0 && loc.collate(c, hi) <= 0
    case Class(name) => loc.isClass(name, c)
  }

  predicate SomeItemHas(loc: Locale, items: seq<Item>, c: char) {
    exists k :: 0 <= k < |items| && ItemHas(loc, items[k], c)
  }

  predicate Accepts(loc: Locale, e: Elem, c: char)
    requires !e.Star?
  {
    match e
    case Any => true
    case Lit(d) => c == d
    case Bracket(negated, items) => SomeItemHas(loc, items, c) != negated
  }

  /** Elements i.. of a pattern match s[j..]; a Star stands for any substring. */
  ghost predicate Matches(loc: Locale, es: seq<Elem>, i: nat, s: string, j: nat)
    requires i <= |es| && j <= |s|
    decreases |es| - i, 0
  {
    if i == |es| then j == |s|
    else if es[i].Star? then MatchesFrom(loc, es, i + 1, s, j)
    else j < |s| && Accepts(loc, es[i], s[j]) && Matches(loc, es, i + 1, s, j + 1)
  }

  /** es[i..] matches s from j or some later position. */
  ghost predicate MatchesFrom(loc: Locale, es: seq<Elem>, i: nat, s: string, j: nat)
    requires i <= |es| && j <= |s|
    decreases |es| - i, 1
  {
    exists k :: j <= k <= |s| && Matches(loc, es, i, s, k)
  }

  // ---------------------------------------------------------------- pattern syntax

  /** A bracket expression scanned from just after '[' and an optional '!' or '^'. */
  datatype Scan = Closed(items: seq<Item>, end: nat) | Open | Overrun

  /** First index n >= i where ":]" starts. */
  function ClassEnd(p: string, i: nat): (r: Option<nat>)
    requires i <= |p|
    ensures r.Some? ==> i <= r.value && r.value + 2 <= |p| && p[r.value] == ':' && p[r.value + 1] == ']'
    decreases |p| - i
  {
    if i + 1 >= |p| then None
    else if p[i] == ':' && p[i + 1] == ']' then Some(i)
    else ClassEnd(p, i + 1)
  }

  /** "[:name:]" at i: the name must have 1 to 19 bytes. */
  function ClassAt(p: string, i: nat): (r: Option<nat>)
    requires i < |p|
    ensures r.Some? ==> i + 3 <= r.value && r.value + 2 <= |p|
  {
    if p[i] == '[' && i + 1 < |p| && p[i + 1] == ':' then
      match ClassEnd(p, i + 2)
      case None => None
      case Some(n) => if n - (i + 2) >= 20 || n == i + 2 then None else Some(n)
    else None
  }

  /** One item of a bracket expression and the index after it; None when the code would
      read the terminating NUL as part of the item and run past it. */
  function ScanItem(p: string, i: nat): (r: Option<(Item, nat)>)
    requires i < |p|
    ensures r.Some? ==> i < r.value.1 <= |p|
  {
    match ClassAt(p, i)
    case Some(n) => Some((Class(p[i + 2..n]), n + 2))
    case None =>
      var k := if p[i] == CTLESC then i + 1 else i;
      if k == |p| then None
      else if k + 1 < |p| && p[k + 1] == '-' && !(k + 2 < |p| && p[k + 2] == ']') then
        var m := if k + 2 < |p| && p[k + 2] == CTLESC then k + 3 else k + 2;
        if m >= |p| then None else Some((Range(p[k], p[m]), m + 1))
      else Some((Single(p[k]), k + 1))
  }

  function ScanItems(p: string, i: nat): (r: Scan)
    requires i <= |p|
    ensures r.Closed? ==> i < r.end <= |p|
    decreases |p| - i
  {
    if i == |p| then Open
    else
      match ScanItem(p, i)
      case None => Overrun
      case Some((item, j)) =>
        if j < |p| && p[j] == ']' then Closed([item], j + 1)
        else match ScanItems(p, j)
          case Closed(items, end) => Closed([item] + items, end)
          case other => other
  }

  function AfterNegation(p: string, i: nat): (j: nat)
    requires i <= |p|
    ensures i <= j <= |p|
  {
    if i < |p| && (p[i] == '!' || p[i] == '^') then i + 1 else i
  }

  /** The pattern element at i and the index after it.  An unterminated '[' is itself. */
  function NextElem(p: string, i: nat): (r: Option<(Elem, nat)>)
    requires i < |p|
    ensures r.Some? ==> i < r.value.1 <= |p|
  {
    if p[i] == CTLESC then
      if i + 1 == |p| then None else Some((Lit(p[i + 1]), i + 2))
    else if p[i] == '?' then Some((Any, i + 1))
    else if p[i] == '*' then Some((Star, i + 1))
    else if p[i] == '[' then
      var j := AfterNegation(p, i + 1);
      match ScanItems(p, j)
      case Closed(items, end) => Some((Bracket(j != i + 1, items), end))
      case Open => Some((Lit('['), i + 1))
      case Overrun => None
    else Some((Lit(p[i]), i + 1))
  }

  /** No element makes the matcher read past the pattern's NUL: no escape character at the
      very end and no bracket range or escape cut off by the end of the pattern. */
  predicate WellFormed(p: string, i: nat)
    requires i <= |p|
    decreases |p| - i
  {
    i == |p| || (NextElem(p, i).Some? && WellFormed(p, NextElem(p, i).value.1))
  }

  function Elems(p: string, i: nat): (es: seq<Elem>)
    requires i <= |p| && WellFormed(p, i)
    decreases |p| - i
  {
    if i == |p| then []
    else
      var (e, j) := NextElem(p, i).value;
      [e] + Elems(p, j)
  }

  ghost predicate GlobMatches(loc: Locale, pattern: string, s: string)
    requires WellFormed(pattern, 0)
  {
    Matches(loc, Elems(pattern, 0), 0, s, 0)
  }

  // ---------------------------------------------------------------- facts about matching

  ghost predicate StarFree(es: seq<Elem>, i: nat, k: nat)
    requires i <= k <= |es|
  {
    forall n :: i <= n < k ==> !es[n].Star?
  }

  /** es[i..] matches from some position after j. */
  ghost predicate MatchesLater(loc: Locale, es: seq<Elem>, i: nat, s: string, j: nat)
    requires i <= |es|
  {
    exists k :: j < k <= |s| && Matches(loc, es, i, s, k)
  }

  /** A star-free run of elements consumes exactly one byte each. */
  lemma {:induction false} StarFreeRun(loc: Locale, es: seq<Elem>, i: nat, k: nat, s: string, j: nat)
    requires i <= k <= |es| && j <= |s| && StarFree(es, i, k)
    requires Matches(loc, es, i, s, j)
    ensures j + (k - i) <= |s| && Matches(loc, es, k, s, j + (k - i))
    decreases k - i
  {
    if i < k {
      StarFreeRun(loc, es, i + 1, k, s, j + 1);
    }
  }

  /** Giving an earlier star more bytes cannot help once a later star has been reached. */
  lemma EarlierStarIsForgotten(loc: Locale, es: seq<Elem>, b: nat, i: nat, s: string, bq: nat, q: nat)
    requires b <= i < |es| && q <= |s| && StarFree(es, b, i) && q - bq == i - b
    requires es[i].Star? && MatchesLater(loc, es, b, s, bq)
    ensures Matches(loc, es, i, s, q)
  {
    var k :| bq < k <= |s| && Matches(loc, es, b, s, k);
    StarFreeRun(loc, es, b, i, s, k);
  }

  /** At the end of the string, no longer match of the last star can succeed. */
  lemma NoLaterMatchAtEnd(loc: Locale, es: seq<Elem>, b: nat, i: nat, s: string, bq: nat)
    requires b <= i <= |es| && bq <= |s| && StarFree(es, b, i) && |s| - bq == i - b
    ensures !MatchesLater(loc, es, b, s, bq)
  {
    forall k | bq < k <= |s| && Matches(loc, es, b, s, k)
      ensures false
    {
      StarFreeRun(loc, es, b, i, s, k);
    }
  }

  /** A star matches here or after at least one more byte. */
  lemma StarHereOrLater(loc: Locale, es: seq<Elem>, i: nat, s: string, j: nat)
    requires i < |es| && j <= |s| && es[i].Star?
    ensures Matches(loc, es, i, s, j) <==> Matches(loc, es, i + 1, s, j) || MatchesLater(loc, es, i + 1, s, j)
  {
    var rest := i + 1;
    assert Matches(loc, es, i, s, j) == MatchesFrom(loc, es, rest, s, j);
  }

  lemma DoubledStar(loc: Locale, es: seq<Elem>, i: nat, s: string, j: nat)
    requires i + 1 < |es| && j <= |s| && es[i].Star? && es[i + 1].Star?
    ensures Matches(loc, es, i, s, j) <==> Matches(loc, es, i + 1, s, j)
  {
    var next := i + 1;
    if Matches(loc, es, i, s, j) {
      assert MatchesFrom(loc, es, next, s, j);
      var k :| j <= k <= |s| && Matches(loc, es, next, s, k);
      assert MatchesFrom(loc, es, next + 1, s, k);
      assert MatchesFrom(loc, es, next + 1, s, j);
    } else if Matches(loc, es, next, s, j) {
      assert MatchesFrom(loc, es, next, s, j);
    }
  }

  /** The retry step: the last star takes one more byte. */
  lemma LaterIsNextOrLater(loc: Locale, es: seq<Elem>, b: nat, s: string, bq: nat)
    requires b <= |es| && bq < |s|
    ensures MatchesLater(loc, es, b, s, bq) <==>
            Matches(loc, es, b, s, bq + 1) || MatchesLater(loc, es, b, s, bq + 1)
  {
  }

  // ---------------------------------------------------------------- the matcher

  /** Tests chr against the item at i: one pass of the do-while loop of the '[' case. */
  method TestItem(loc: Locale, p: string, i: nat, chr: char) returns (hit: bool, next: nat)
    requires i < |p| && ScanItem(p, i).Some?
    ensures hit == ItemHas(loc, ScanItem(p, i).value.0, chr) && next == ScanItem(p, i).value.1
  {
    var nameEnd := ClassAt(p, i);
    if nameEnd.Some? {
      return loc.isClass(p[i + 2..nameEnd.value], chr), nameEnd.value + 2;
    }
    var k := i;
    if p[k] == CTLESC {
      k := k + 1;
    }
    if k + 1 < |p| && p[k + 1] == '-' && !(k + 2 < |p| && p[k + 2] == ']') {
      var m := k + 2;
      if m < |p| && p[m] == CTLESC {
        m := m + 1;
      }
      return loc.collate(chr, p[k]) >= 0 && loc.collate(chr, p[m]) <= 0, m + 1;
    }
    return chr == p[k], k + 1;
  }

  /** The bracket text from start on: the items seen so far and those from `at` on. */
  ghost predicate ScannedTo(p: string, start: nat, at: nat, seen: seq<Item>)
    requires start <= |p| && at <= |p|
  {
    match ScanItems(p, at)
    case Closed(items, end) => ScanItems(p, start) == Closed(seen + items, end)
    case other => ScanItems(p, start) == other
  }

  lemma ScanOne(p: string, start: nat, at: nat, seen: seq<Item>)
    requires start <= |p| && at < |p| && ScannedTo(p, start, at, seen) && !ScanItems(p, start).Overrun?
    ensures ScanItem(p, at).Some?
    ensures var (item, next) := ScanItem(p, at).value;
            if next < |p| && p[next] == ']' then ScanItems(p, start) == Closed(seen + [item], next + 1)
            else ScannedTo(p, start, next, seen + [item])
  {
    var (item, next) := ScanItem(p, at).value;
    var rest := ScanItems(p, next);
    assert rest.Closed? ==> seen + ([item] + rest.items) == (seen + [item]) + rest.items;
  }

  /** Scans a whole bracket expression and tests chr against it. */
  method ScanBracket(loc: Locale, p: string, start: nat, chr: char)
    returns (closed: bool, found: bool, end: nat)
    requires start <= |p| && !ScanItems(p, start).Overrun?
    ensures closed == ScanItems(p, start).Closed?
    ensures closed ==> end == ScanItems(p, start).end && found == SomeItemHas(loc, ScanItems(p, start).items, chr)
  {
    found, end := false, start;
    ghost var seen: seq<Item> := [];
    assert ScannedTo(p, start, end, seen) by { assert forall items: seq<Item> :: [] + items == items; }
    while end < |p|
      invariant start <= end <= |p|
      invariant found == SomeItemHas(loc, seen, chr)
      invariant ScannedTo(p, start, end, seen)
    {
      hide ScannedTo, ScanItems, ScanItem, ItemHas, SomeItemHas;
      ScanOne(p, start, end, seen);
      ghost var item := ScanItem(p, end).value.0;
      var hit, next := TestItem(loc, p, end, chr);
      ItemAdded(loc, seen, item, chr);
      found, end, seen := found || hit, next, seen + [item];
      if end < |p| && p[end] == ']' {
        return true, found, end + 1;
      }
    }
    closed := false;
  }

  lemma ItemAdded(loc: Locale, items: seq<Item>, item: Item, c: char)
    ensures SomeItemHas(loc, items + [item], c) <==> SomeItemHas(loc, items, c) || ItemHas(loc, item, c)
  {
    if SomeItemHas(loc, items, c) {
      var k :| 0 <= k < |items| && ItemHas(loc, items[k], c);
      assert (items + [item])[k] == items[k];
    }
    assert (items + [item])[|items|] == item;
  }

  /** Index p of the pattern text is where element i starts. */
  ghost predicate At(pattern: string, p: nat, es: seq<Elem>, i: nat) {
    p <= |pattern| && WellFormed(pattern, p) && i <= |es| && es[i..] == Elems(pattern, p)
  }

  lemma AtNext(pattern: string, p: nat, es: seq<Elem>, i: nat)
    requires At(pattern, p, es, i)
    ensures p <= |pattern| && i <= |es| && (p == |pattern| <==> i == |es|)
    ensures p < |pattern| ==>
            NextElem(pattern, p).Some? && es[i] == NextElem(pattern, p).value.0 &&
            At(pattern, NextElem(pattern, p).value.1, es, i + 1)
  {
    if p < |pattern| {
      var (e, j) := NextElem(pattern, p).value;
      assert es[i..][0] == e;
      assert es[i + 1..] == es[i..][1..] == Elems(pattern, j);
    }
  }

  /** Steps over a run of stars; only the last one matters. */
  method SkipStars(loc: Locale, pattern: string, start: nat, ghost es: seq<Elem>, ghost first: nat,
                   ghost s: string, ghost j: nat)
    returns (p: nat, ghost i: nat)
    requires At(pattern, start, es, first) && start < |pattern| && pattern[start] == '*' && j <= |s|
    ensures start < p && At(pattern, p, es, i) && first < i && es[first].Star? && es[i - 1].Star?
    ensures Matches(loc, es, first, s, j) <==> Matches(loc, es, i - 1, s, j)
  {
    AtNext(pattern, start, es, first);
    p, i := start + 1, first + 1;
    while p < |pattern| && pattern[p] == '*'
      invariant start < p && At(pattern, p, es, i) && first < i && es[i - 1].Star?
      invariant Matches(loc, es, first, s, j) <==> Matches(loc, es, i - 1, s, j)
    {
      AtNext(pattern, p, es, i);
      DoubledStar(loc, es, i - 1, s, j);
      p, i := p + 1, i + 1;
    }
  }

  /** Matches one byte against the bracket expression or ordinary character at p. */
  method MatchByte(loc: Locale, pattern: string, p: nat, chr: char) returns (ok: bool, next: nat)
    requires p < |pattern| && pattern[p] !in ['*', '?', CTLESC] && NextElem(pattern, p).Some?
    ensures ok == Accepts(loc, NextElem(pattern, p).value.0, chr)
    ensures ok ==> next == NextElem(pattern, p).value.1
  {
    if pattern[p] == '[' {
      var from := p + 1;
      if from < |pattern| && (pattern[from] == '!' || pattern[from] == '^') {
        from := from + 1;
      }
      var closed, found, end := ScanBracket(loc, pattern, from, chr);
      if closed {
        return found != (from != p + 1), end;
      }
    }
    return chr == pattern[p], p + 1;
  }

  /** Where the search is: text index p, element i, string index q; the last star, if any, ended at
      btP (element b) and was last tried at btQ. */
  datatype Spot = Spot(p: nat, i: nat, q: nat, hasBt: bool, btP: nat, b: nat, btQ: nat)

  /** The whole match holds exactly when it holds from here or from a longer match of the last star. */
  ghost predicate Searching(loc: Locale, pattern: string, es: seq<Elem>, s: string, at: Spot) {
    at.q <= |s| && At(pattern, at.p, es, at.i) && at.btQ <= |s| &&
    (at.hasBt ==> At(pattern, at.btP, es, at.b) && at.b <= at.i && StarFree(es, at.b, at.i)
                  && at.q - at.btQ == at.i - at.b) &&
    (Matches(loc, es, 0, s, 0) <==> Matches(loc, es, at.i, s, at.q)
                                    || (at.hasBt && MatchesLater(loc, es, at.b, s, at.btQ)))
  }

  lemma ElementAt(pattern: string, p: nat)
    requires p < |pattern|
    ensures pattern[p] == '*' ==> NextElem(pattern, p) == Some((Star, p + 1))
    ensures pattern[p] == '?' ==> NextElem(pattern, p) == Some((Any, p + 1))
    ensures pattern[p] == CTLESC && p + 1 < |pattern| ==> NextElem(pattern, p) == Some((Lit(pattern[p + 1]), p + 2))
    ensures pattern[p] == CTLESC && NextElem(pattern, p).Some? ==> p + 1 < |pattern|
    ensures pattern[p] != '*' && NextElem(pattern, p).Some? ==> !NextElem(pattern, p).value.0.Star?
  {
  }

  lemma PatternEnd(loc: Locale, pattern: string, es: seq<Elem>, s: string, at: Spot)
    requires Searching(loc, pattern, es, s, at) && at.p == |pattern| && at.q == |s|
    ensures Matches(loc, es, 0, s, 0)
  {
    AtNext(pattern, at.p, es, at.i);
  }

  lemma ByteAccepted(loc: Locale, pattern: string, es: seq<Elem>, s: string, at: Spot)
    requires Searching(loc, pattern, es, s, at) && at.p < |pattern| && at.q < |s|
    requires NextElem(pattern, at.p).Some? && !NextElem(pattern, at.p).value.0.Star?
    requires Accepts(loc, NextElem(pattern, at.p).value.0, s[at.q])
    ensures Searching(loc, pattern, es, s, at.(p := NextElem(pattern, at.p).value.1, i := at.i + 1, q := at.q + 1))
  {
    hide Elems, WellFormed, ScanItems, NextElem, MatchesLater;
    AtNext(pattern, at.p, es, at.i);
    assert Matches(loc, es, at.i, s, at.q) <==> Matches(loc, es, at.i + 1, s, at.q + 1);
  }

  /** A mismatch sends the search back to the last star with one more byte, or ends it. */
  lemma Mismatch(loc: Locale, pattern: string, es: seq<Elem>, s: string, at: Spot)
    requires Searching(loc, pattern, es, s, at)
    requires if at.p < |pattern|
             then NextElem(pattern, at.p).Some? && !NextElem(pattern, at.p).value.0.Star? &&
                  (at.q == |s| || !Accepts(loc, NextElem(pattern, at.p).value.0, s[at.q]))
             else at.q < |s|
    ensures if at.hasBt && at.btQ < |s|
            then Searching(loc, pattern, es, s, at.(p := at.btP, i := at.b, q := at.btQ + 1, btQ := at.btQ + 1))
            else !Matches(loc, es, 0, s, 0)
  {
    hide Elems, WellFormed, ScanItems, NextElem;
    AtNext(pattern, at.p, es, at.i);
    assert !Matches(loc, es, at.i, s, at.q);
    if at.hasBt && at.btQ < |s| {
      LaterIsNextOrLater(loc, es, at.b, s, at.btQ);
    }
  }

  /** At the end of the string, an element that needs a byte ends the search. */
  lemma StringEnd(loc: Locale, pattern: string, es: seq<Elem>, s: string, at: Spot)
    requires Searching(loc, pattern, es, s, at) && at.q == |s|
    requires at.p < |pattern| && NextElem(pattern, at.p).Some? && !NextElem(pattern, at.p).value.0.Star?
    ensures !Matches(loc, es, 0, s, 0)
  {
    hide Elems, WellFormed, ScanItems, NextElem, MatchesLater;
    AtNext(pattern, at.p, es, at.i);
    if at.hasBt {
      NoLaterMatchAtEnd(loc, es, at.b, at.i, s, at.btQ);
    }
  }

  /** A star becomes the one to come back to; any earlier one is forgotten. */
  lemma StarReached(loc: Locale, pattern: string, es: seq<Elem>, s: string, at: Spot, p: nat, i: nat)
    requires Searching(loc, pattern, es, s, at)
    requires At(pattern, p, es, i) && at.i < i && at.i < |es| && es[at.i].Star? && es[i - 1].Star?
    requires Matches(loc, es, at.i, s, at.q) <==> Matches(loc, es, i - 1, s, at.q)
    ensures Searching(loc, pattern, es, s, Spot(p, i, at.q, true, p, i, at.q))
    ensures p == |pattern| ==> Matches(loc, es, 0, s, 0)
  {
    AtNext(pattern, p, es, i);
    hide At, Elems, WellFormed;
    if at.hasBt && MatchesLater(loc, es, at.b, s, at.btQ) {
      EarlierStarIsForgotten(loc, es, at.b, at.i, s, at.btQ, at.q);
    }
    StarHereOrLater(loc, es, i - 1, s, at.q);
    if p == |pattern| {
      assert Matches(loc, es, i, s, |s|);
    }
  }

  /** patmatch: it remembers only the last star, yet decides the whole match relation. */
  method PatMatch(loc: Locale, pattern: string, str: string) returns (r: bool)
    requires WellFormed(pattern, 0)
    ensures r <==> GlobMatches(loc, pattern, str)
  {
    hide Searching, At, Matches, NextElem, Accepts, Elems, WellFormed, GlobMatches;
    ghost var es := Elems(pattern, 0);
    var p: nat, q: nat := 0, 0;
    var hasBt, btP: nat, btQ: nat := false, 0, 0;
    ghost var i: nat, b: nat := 0, 0;
    SearchStart(loc, pattern, str);
    while true
      invariant p <= |pattern| && q <= |str| && btP <= |pattern| && btQ <= |str|
      invariant Searching(loc, pattern, es, str, Spot(p, i, q, hasBt, btP, b, btQ))
      decreases if hasBt then |str| - btQ else |str| + 1, |pattern| - p
    {
      SearchFacts(loc, pattern, es, str, Spot(p, i, q, hasBt, btP, b, btQ));
      var ok, next := false, p;
      if p == |pattern| {
        if q == |str| {
          PatternEnd(loc, pattern, es, str, Spot(p, i, q, hasBt, btP, b, btQ));
          return true;
        }
      } else {
        ElementAt(pattern, p);
        if pattern[p] == '*' {
          ghost var p0, i0 := p, i;
          p, i := SkipStars(loc, pattern, p, es, i, str, q);
          StarReached(loc, pattern, es, str, Spot(p0, i0, q, hasBt, btP, b, btQ), p, i);
          if p == |pattern| {
            return true;
          }
          hasBt, btP, btQ, b := true, p, q, i;
          continue;
        } else if pattern[p] == CTLESC {
          ok, next := q < |str| && str[q] == pattern[p + 1], p + 2;
          assert q < |str| ==> ok == Accepts(loc, Lit(pattern[p + 1]), str[q]) by
                 { LitAccepts(loc, pattern[p + 1], str); }
        } else if q == |str| {
          StringEnd(loc, pattern, es, str, Spot(p, i, q, hasBt, btP, b, btQ));
          return false;
        } else if pattern[p] == '?' {
          ok, next := true, p + 1;
          assert Accepts(loc, Any, str[q]) by { AnyAccepts(loc, str[q]); }
        } else {
          ok, next := MatchByte(loc, pattern, p, str[q]);
        }
      }
      if ok {
        ByteAccepted(loc, pattern, es, str, Spot(p, i, q, hasBt, btP, b, btQ));
        p, q, i := next, q + 1, i + 1;
      } else {
        Mismatch(loc, pattern, es, str, Spot(p, i, q, hasBt, btP, b, btQ));
        if !hasBt {
          return false;
        }
        if btQ == |str| {
          return false;
        }
        btQ := btQ + 1;
        p, q, i := btP, btQ, b;
      }
    }
  }

  lemma AnyAccepts(loc: Locale, c: char)
    ensures Accepts(loc, Any, c)
  {
  }

  lemma LitAccepts(loc: Locale, c: char, s: string)
    ensures forall k :: 0 <= k < |s| ==> (Accepts(loc, Lit(c), s[k]) <==> s[k] == c)
  {
  }

  lemma SearchStart(loc: Locale, pattern: string, s: string)
    requires WellFormed(pattern, 0)
    ensures Searching(loc, pattern, Elems(pattern, 0), s, Spot(0, 0, 0, false, 0, 0, 0))
    ensures GlobMatches(loc, pattern, s) == Matches(loc, Elems(pattern, 0), 0, s, 0)
  {
    assert Elems(pattern, 0)[0..] == Elems(pattern, 0);
  }

  lemma SearchFacts(loc: Locale, pattern: string, es: seq<Elem>, s: string, at: Spot)
    requires Searching(loc, pattern, es, s, at)
    ensures At(pattern, at.p, es, at.i) && at.i <= |es|
            && (at.p < |pattern| ==> at.i < |es| && NextElem(pattern, at.p).Some?)
    ensures (at.p < |pattern| ==> NextElem(pattern, at.p).value.1 <= |pattern|) && (at.hasBt ==> at.btQ <= at.q)
  {
    AtNext(pattern, at.p, es, at.i);
  }
}
