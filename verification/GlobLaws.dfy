/** What patterns mean, said of their text: one law for each kind of pattern element (section 2.13.1 of
    POSIX.1-2017, Shell Command Language), and brackets written out from any list of items. */
module GlobLaws {
  import opened Wrappers
  import opened Glob

  // ---------------------------------------------------------------- reading does not look back

  function Later<T>(r: Option<(T, nat)>, n: nat): Option<(T, nat)> {
    match r case None => None case Some((x, j)) => Some((x, n + j))
  }

  lemma {:induction false} ClassEndShift(a: string, t: string, i: nat)
    requires i <= |t|
    ensures ClassEnd(a + t, |a| + i) == match ClassEnd(t, i) case None => None case Some(n) => Some(|a| + n)
    decreases |t| - i
  {
    if i + 1 < |t| { ClassEndShift(a, t, i + 1); }
  }

  lemma ScanItemShift(a: string, t: string, i: nat)
    requires i < |t|
    ensures ScanItem(a + t, |a| + i) == Later(ScanItem(t, i), |a|)
  {
    if i + 2 <= |t| { ClassEndShift(a, t, i + 2); }
    var n := ClassAt(t, i);
    if n.Some? { assert (a + t)[|a| + i + 2..|a| + n.value] == t[i + 2..n.value]; }
  }

  lemma {:induction false} ScanItemsShift(a: string, t: string, i: nat)
    requires i <= |t|
    ensures ScanItems(a + t, |a| + i) == match ScanItems(t, i) case Closed(items, end) => Closed(items,
            |a| + end) case o => o
    decreases |t| - i
  {
    hide ScanItem;
    if i < |t| {
      ScanItemShift(a, t, i);
      var r := ScanItem(t, i);
      if r.Some? {
        ScanItemsShift(a, t, r.value.1);
        assert r.value.1 < |t| ==> (a + t)[|a| + r.value.1] == t[r.value.1];
      }
    }
  }

  lemma NextElemShift(a: string, t: string, i: nat)
    requires i < |t|
    ensures NextElem(a + t, |a| + i) == Later(NextElem(t, i), |a|)
  {
    hide ScanItems;
    ScanItemsShift(a, t, AfterNegation(t, i + 1));
  }

  lemma {:induction false} ElemsShift(a: string, t: string, i: nat)
    requires i <= |t|
    ensures WellFormed(a + t, |a| + i) == WellFormed(t, i)
    ensures WellFormed(t, i) ==> Elems(a + t, |a| + i) == Elems(t, i)
    decreases |t| - i
  {
    hide NextElem;
    if i < |t| {
      NextElemShift(a, t, i);
      var r := NextElem(t, i);
      if r.Some? { ElemsShift(a, t, r.value.1); }
    }
  }

  // ---------------------------------------------------------------- matching does not look back

  lemma {:induction false} MatchesShift(loc: Locale, a: seq<Elem>, es: seq<Elem>, i: nat, b: string, s: string, j: nat)
    requires i <= |es| && j <= |s|
    ensures Matches(loc, a + es, |a| + i, b + s, |b| + j) == Matches(loc, es, i, s, j)
    decreases |es| - i
  {
    hide Accepts;
    if i < |es| {
      if es[i].Star? {
        var n := i + 1;
        forall k | j <= k <= |s| ensures Matches(loc, a + es, |a| + n, b + s, |b| + k) == Matches(loc, es, n, s, k) {
          MatchesShift(loc, a, es, n, b, s, k);
        }
        FromShift(loc, a, es, n, b, s, j);
      } else if j < |s| {
        MatchesShift(loc, a, es, i + 1, b, s, j + 1);
      }
    }
  }

  lemma FromShift(loc: Locale, a: seq<Elem>, es: seq<Elem>, i: nat, b: string, s: string, j: nat)
    requires i <= |es| && j <= |s|
    requires forall k :: j <= k <= |s| ==> Matches(loc, a + es, |a| + i, b + s, |b| + k) == Matches(loc, es, i, s, k)
    ensures MatchesFrom(loc, a + es, |a| + i, b + s, |b| + j) == MatchesFrom(loc, es, i, s, j)
  {
    if MatchesFrom(loc, a + es, |a| + i, b + s, |b| + j) {
      assert MatchesFrom(loc, a + es, |a| + i, b + s, |b| + j);
      var k :| |b| + j <= k <= |b + s| && Matches(loc, a + es, |a| + i, b + s, k);
      assert Matches(loc, es, i, s, k - |b|);
    }
    if MatchesFrom(loc, es, i, s, j) {
      assert MatchesFrom(loc, es, i, s, j);
      var k :| j <= k <= |s| && Matches(loc, es, i, s, k);
      assert Matches(loc, a + es, |a| + i, b + s, |b| + k);
    }
  }

  /** A pattern whose first element ends where rest begins. */
  lemma HeadThenRest(loc: Locale, head: string, rest: string, e: Elem)
    requires head != "" && NextElem(head + rest, 0) == Some((e, |head|)) && WellFormed(rest, 0)
    ensures WellFormed(head + rest, 0) && Elems(head + rest, 0) == [e] + Elems(rest, 0)
  {
    hide NextElem;
    ElemsShift(head, rest, 0);
  }

  lemma ByteThenRest(loc: Locale, head: string, rest: string, e: Elem, s: string)
    requires head != "" && NextElem(head + rest, 0) == Some((e, |head|)) && WellFormed(rest, 0) && !e.Star?
    ensures WellFormed(head + rest, 0)
    ensures GlobMatches(loc, head + rest, s) <==> s != "" && Accepts(loc, e, s[0]) && GlobMatches(loc, rest, s[1..])
  {
    HeadThenRest(loc, head, rest, e);
    hide NextElem, Accepts, Elems, WellFormed;
    if s != "" {
      MatchesShift(loc, [e], Elems(rest, 0), 0, s[..1], s[1..], 0);
      assert s == s[..1] + s[1..];
    }
  }

  // ---------------------------------------------------------------- one law for each kind of element

  lemma EmptyPattern(loc: Locale, s: string)
    ensures GlobMatches(loc, "", s) <==> s == ""
  {
  }

  /** An ordinary character matches itself. */
  lemma OrdinaryByte(loc: Locale, c: char, rest: string, s: string)
    requires c !in ['*', '?', '[', CTLESC] && WellFormed(rest, 0)
    ensures WellFormed([c] + rest, 0)
    ensures GlobMatches(loc, [c] + rest, s) <==> s != "" && s[0] == c && GlobMatches(loc, rest, s[1..])
  {
    ByteThenRest(loc, [c], rest, Lit(c), s);
  }

  /** Any character matches itself when it is escaped. */
  lemma EscapedByte(loc: Locale, c: char, rest: string, s: string)
    requires WellFormed(rest, 0)
    ensures WellFormed([CTLESC, c] + rest, 0)
    ensures GlobMatches(loc, [CTLESC, c] + rest, s) <==> s != "" && s[0] == c && GlobMatches(loc, rest, s[1..])
  {
    ByteThenRest(loc, [CTLESC, c], rest, Lit(c), s);
  }

  lemma QuestionMark(loc: Locale, rest: string, s: string)
    requires WellFormed(rest, 0)
    ensures WellFormed("?" + rest, 0)
    ensures GlobMatches(loc, "?" + rest, s) <==> s != "" && GlobMatches(loc, rest, s[1..])
  {
    ByteThenRest(loc, "?", rest, Any, s);
  }

  lemma Asterisk(loc: Locale, rest: string, s: string)
    requires WellFormed(rest, 0)
    ensures WellFormed("*" + rest, 0)
    ensures GlobMatches(loc, "*" + rest, s) <==> exists k :: 0 <= k <= |s| && GlobMatches(loc, rest, s[k..])
  {
    HeadThenRest(loc, "*", rest, Star);
    hide NextElem, Accepts, Elems, WellFormed;
    var es := Elems(rest, 0);
    forall k | 0 <= k <= |s| ensures Matches(loc, [Star] + es, 1, s, k) == GlobMatches(loc, rest, s[k..]) {
      MatchesShift(loc, [Star], es, 0, s[..k], s[k..], 0);
      assert s == s[..k] + s[k..];
    }
    assert GlobMatches(loc, "*" + rest, s) == MatchesFrom(loc, [Star] + es, 1, s, 0);
    if MatchesFrom(loc, [Star] + es, 1, s, 0) {
      var k :| 0 <= k <= |s| && Matches(loc, [Star] + es, 1, s, k);
      assert GlobMatches(loc, rest, s[k..]);
    }
  }

  // ---------------------------------------------------------------- brackets

  /** An item as text, its characters escaped. */
  function ItemText(it: Item): (t: string) {
    match it
    case Single(c) => [CTLESC, c]
    case Range(lo, hi) => [CTLESC, lo, '-', CTLESC, hi]
    case Class(name) => "[:" + name + ":]"
  }

  function ItemsText(items: seq<Item>): string {
    if items == [] then "" else ItemText(items[0]) + ItemsText(items[1..])
  }

  /** A class name has 1 to 19 bytes and does not end early. */
  ghost predicate Writable(it: Item) {
    it.Class? ==> 1 <= |it.name| < 20 && forall k :: 0 <= k < |it.name| - 1 ==>
        !(it.name[k] == ':' && it.name[k + 1] == ']')
  }

  ghost predicate AllWritable(items: seq<Item>) { forall k :: 0 <= k < |items| ==> Writable(items[k]) }

  lemma {:induction false} ClassEndFound(p: string, i: nat, n: nat)
    requires i <= n && n + 2 <= |p| && p[n] == ':' && p[n + 1] == ']'
    requires forall k :: i <= k < n ==> !(p[k] == ':' && p[k + 1] == ']')
    ensures ClassEnd(p, i) == Some(n)
    decreases n - i
  {
    if i < n { ClassEndFound(p, i + 1, n); }
  }

  lemma ItemScanned(it: Item, more: string)
    requires Writable(it) && more != "" && more[0] in ['[', ']', CTLESC]
    ensures ScanItem(ItemText(it) + more, 0) == Some((it, |ItemText(it)|))
    ensures ItemText(it) != "" && ItemText(it)[0] in ['[', CTLESC]
  {
    var p := ItemText(it) + more;
    match it {
      case Single(c) =>
        assert p[0] == CTLESC && p[1] == c && p[2] == more[0];
      case Range(lo, hi) =>
        assert p[0] == CTLESC && p[1] == lo && p[2] == '-' && p[3] == CTLESC && p[4] == hi;
      case Class(name) =>
        var n := 2 + |name|;
        assert p[0] == '[' && p[1] == ':' && p[n] == ':' && p[n + 1] == ']' && p[2..n] == name;
        assert forall k :: 2 <= k < n ==> p[k] == name[k - 2];
        ClassEndFound(p, 2, n);
        assert ClassAt(p, 0) == Some(n);
    }
  }

  lemma {:induction false} ItemsScanned(items: seq<Item>, rest: string)
    requires items != [] && AllWritable(items)
    ensures ScanItems(ItemsText(items) + "]" + rest, 0) == Closed(items, |ItemsText(items)| + 1)
    ensures ItemsText(items) != "" && ItemsText(items)[0] in ['[', CTLESC]
    decreases items
  {
    if |items| > 1 { ItemsScanned(items[1..], rest); }
    MoreScanned(items, rest);
  }

  lemma MoreScanned(items: seq<Item>, rest: string)
    requires items != [] && AllWritable(items)
    requires |items| > 1 ==> ScanItems(ItemsText(items[1..]) + "]" + rest, 0)
                             == Closed(items[1..], |ItemsText(items[1..])| + 1)
    requires |items| > 1 ==> ItemsText(items[1..]) != "" && ItemsText(items[1..])[0] in ['[', CTLESC]
    ensures ScanItems(ItemsText(items) + "]" + rest, 0) == Closed(items, |ItemsText(items)| + 1)
    ensures ItemsText(items) != "" && ItemsText(items)[0] in ['[', CTLESC]
  {
    hide ScanItems, ScanItem, ItemText;
    var it, tail := items[0], ItemsText(items[1..]);
    var head, more := ItemText(it), tail + "]" + rest;
    assert ItemsText(items) + "]" + rest == head + more && ItemsText(items) == head + tail;
    assert |items| == 1 ==> tail == "" && more[0] == ']' && items == [it];
    assert |items| > 1 ==> more[0] == tail[0] && items == [it] + items[1..];
    ItemScanned(it, more);
    ScanItemsShift(head, more, 0);
    ScanItemsStep(head, more, it, items[1..], |tail| + 1);
  }

  lemma ScanItemsStep(head: string, more: string, it: Item, items: seq<Item>, n: nat)
    requires more != "" && ScanItem(head + more, 0) == Some((it, |head|)) && (items == [] ==> more[0] == ']' && n == 1)
    requires items != [] ==> more[0] != ']' && ScanItems(head + more, |head| + 0) == Closed(items, |head| + n)
    ensures ScanItems(head + more, 0) == Closed([it] + items, |head| + n)
  {
    hide ScanItem;
    assert (head + more)[|head|] == more[0];
  }

  /** A bracket expression with any items, plain or negated by ! or ^, takes one byte, which some item has
      or, when negated, none. */
  lemma BracketLaw(loc: Locale, negation: string, items: seq<Item>, rest: string, s: string)
    requires negation in ["", "!", "^"] && items != [] && AllWritable(items) && WellFormed(rest, 0)
    ensures WellFormed("[" + negation + ItemsText(items) + "]" + rest, 0)
    ensures GlobMatches(loc, "[" + negation + ItemsText(items) + "]" + rest, s) <==>
              && s != "" && (SomeItemHas(loc, items, s[0]) <==> negation == "")
              && GlobMatches(loc, rest, s[1..])
  {
    var head := "[" + negation + ItemsText(items) + "]";
    ItemsScanned(items, rest);
    BracketRead(negation, items, rest, head);
    hide NextElem, WellFormed, GlobMatches;
    ByteThenRest(loc, head, rest, Bracket(negation != "", items), s);
  }

  lemma BracketRead(negation: string, items: seq<Item>, rest: string, head: string)
    requires negation in ["", "!", "^"] && items != [] && head == "[" + negation + ItemsText(items) + "]"
    requires ScanItems(ItemsText(items) + "]" + rest, 0) == Closed(items, |ItemsText(items)| + 1)
    requires ItemsText(items) != "" && ItemsText(items)[0] in ['[', CTLESC]
    ensures NextElem(head + rest, 0) == Some((Bracket(negation != "", items), |head|))
  {
    hide ScanItems, ItemsText;
    var a, t := "[" + negation, ItemsText(items) + "]" + rest;
    assert head + rest == a + t;
    ScanItemsShift(a, t, 0);
    assert (a + t)[1] == if negation == "" then t[0] else negation[0];
    assert AfterNegation(a + t, 1) == |a|;
  }

  /** Negation by either character turns what a bracket accepts around. */
  lemma NegationLaw(loc: Locale, t: string, x: char)
    requires t != "" && t[0] !in ['!', '^'] && ScanItems(t, 0).Closed? && ScanItems(t, 0).end == |t|
    ensures WellFormed("[" + t, 0) && WellFormed("[!" + t, 0) && WellFormed("[^" + t, 0)
    ensures GlobMatches(loc, "[!" + t, [x]) <==> !GlobMatches(loc, "[" + t, [x])
    ensures GlobMatches(loc, "[^" + t, [x]) <==> !GlobMatches(loc, "[" + t, [x])
  {
    hide ScanItems, WellFormed, GlobMatches, SomeItemHas;
    OneBracket(loc, "[", "", t, x);
    OneBracket(loc, "[!", "!", t, x);
    OneBracket(loc, "[^", "^", t, x);
  }

  lemma OneBracket(loc: Locale, a: string, negation: string, t: string, x: char)
    requires negation in ["", "!", "^"] && a == "[" + negation && t != "" && t[0] !in ['!', '^']
    requires ScanItems(t, 0).Closed? && ScanItems(t, 0).end == |t|
    ensures WellFormed(a + t, 0)
    ensures GlobMatches(loc, a + t, [x]) <==> (SomeItemHas(loc, ScanItems(t, 0).items, x) <==> negation == "")
  {
    hide ScanItems, WellFormed, GlobMatches, NextElem, SomeItemHas;
    var items := ScanItems(t, 0).items;
    OneBracketRead(a, negation, t);
    assert (a + t) + "" == a + t;
    EmptyPattern(loc, [x][1..]);
    NothingLeft();
    ByteThenRest(loc, a + t, "", Bracket(negation != "", items), [x]);
  }

  lemma NothingLeft()
    ensures WellFormed("", 0)
  {
  }

  lemma OneBracketRead(a: string, negation: string, t: string)
    requires negation in ["", "!", "^"] && a == "[" + negation && t != "" && t[0] !in ['!', '^']
    requires ScanItems(t, 0).Closed? && ScanItems(t, 0).end == |t|
    ensures NextElem(a + t, 0) == Some((Bracket(negation != "", ScanItems(t, 0).items), |a + t|))
  {
    hide ScanItems;
    ScanItemsShift(a, t, 0);
    assert (a + t)[1] == if negation == "" then t[0] else negation[0];
    assert AfterNegation(a + t, 1) == |a|;
  }

  /** Bytes that stand for themselves in a bracket: a closing bracket comes first, a hyphen first or last,
      and a negation not first. */
  ghost predicate Plain(u: string) {
    && u != "" && u[0] !in ['!', '^']
    && (forall i :: 0 <= i < |u| ==> u[i] !in ['[', CTLESC])
    && (forall i :: 0 < i < |u| ==> u[i] != ']')
    && (forall i :: 0 < i < |u| - 1 ==> u[i] != '-')
  }

  lemma {:induction false} PlainScanned(u: string, i: nat)
    requires Plain(u) && i < |u|
    ensures var r := ScanItems(u + "]", i);
            r.Closed? && r.end == |u| + 1 && |r.items| == |u| - i && forall k :: 0 <= k < |u| - i ==>
                r.items[k] == Single(u[i + k])
    decreases |u| - i
  {
    var p := u + "]";
    assert ScanItem(p, i) == Some((Single(u[i]), i + 1));
    hide ScanItem;
    if i + 1 < |u| { PlainScanned(u, i + 1); }
  }

  /** Plain bytes in a bracket: exactly they are accepted. */
  lemma PlainBracket(loc: Locale, u: string, x: char)
    requires Plain(u)
    ensures WellFormed("[" + u + "]", 0)
    ensures GlobMatches(loc, "[" + u + "]", [x]) <==> x in u
  {
    PlainScanned(u, 0);
    OneBracket(loc, "[", "", u + "]", x);
    assert "[" + (u + "]") == "[" + u + "]";
    var items := ScanItems(u + "]", 0).items;
    hide ScanItems, GlobMatches, WellFormed;
    if x in u {
      var k :| 0 <= k < |u| && u[k] == x;
      assert ItemHas(loc, items[k], x);
    }
  }

  /** A range accepts what collates between its ends, both included. */
  lemma RangeBracket(loc: Locale, lo: char, hi: char, x: char)
    requires lo !in ['!', '^', CTLESC] && hi !in [']', CTLESC]
    ensures WellFormed("[" + [lo, '-', hi] + "]", 0)
    ensures GlobMatches(loc, "[" + [lo, '-', hi] + "]", [x]) <==> loc.collate(x, lo) >= 0 && loc.collate(x, hi) <= 0
  {
    var t := [lo, '-', hi] + "]";
    assert ScanItem(t, 0) == Some((Range(lo, hi), 3));
    assert ScanItems(t, 0) == Closed([Range(lo, hi)], 4);
    OneBracket(loc, "[", "", t, x);
    assert "[" + t == "[" + [lo, '-', hi] + "]";
    hide ScanItems, GlobMatches, WellFormed;
    assert SomeItemHas(loc, [Range(lo, hi)], x) <==> ItemHas(loc, [Range(lo, hi)][0], x);
  }

  /** A class accepts what the locale says is in it. */
  lemma ClassBracket(loc: Locale, name: string, x: char)
    requires Writable(Class(name))
    ensures WellFormed("[[:" + name + ":]]", 0)
    ensures GlobMatches(loc, "[[:" + name + ":]]", [x]) <==> loc.isClass(name, x)
  {
    var t := "[:" + name + ":]]";
    ItemScanned(Class(name), "]");
    assert ItemText(Class(name)) + "]" == t;
    assert ScanItems(t, 0) == Closed([Class(name)], |t|);
    OneBracket(loc, "[", "", t, x);
    assert "[" + t == "[[:" + name + ":]]";
    hide ScanItems, GlobMatches, WellFormed;
    assert SomeItemHas(loc, [Class(name)], x) <==> ItemHas(loc, [Class(name)][0], x);
  }

  /** Bytes without a meaning in a bracket. */
  ghost predicate Meaningless(u: string) {
    forall i :: 0 <= i < |u| ==> u[i] !in ['[', ']', '-', CTLESC]
  }

  lemma {:induction false} MeaninglessScanned(u: string, i: nat)
    requires u != "" && Meaningless(u[1..]) && 1 <= i < |u|
    ensures var r := ScanItems(u + "]", i);
            r.Closed? && r.end == |u| + 1 && |r.items| == |u| - i && forall k :: 0 <= k < |u| - i ==>
                r.items[k] == Single(u[i + k])
    decreases |u| - i
  {
    var p := u + "]";
    assert u[i] == u[1..][i - 1];
    if i + 1 < |u| { assert u[i + 1] == u[1..][i]; }
    assert ScanItem(p, i) == Some((Single(u[i]), i + 1));
    hide ScanItem;
    if i + 1 < |u| { MeaninglessScanned(u, i + 1); }
  }

  /** What looks like a class without a name, or with one of 20 bytes or more, is not one: its bytes stand
      for themselves. */
  lemma NoSuchClass(loc: Locale, name: string, x: char)
    requires Meaningless(name) && ':' !in name && (name == "" || |name| >= 20)
    ensures var u := "[:" + name + ":"; WellFormed("[" + u + "]", 0)
                                        && (GlobMatches(loc, "[" + u + "]", [x]) <==> x in u)
  {
    var u := "[:" + name + ":";
    var t, n := u + "]", |name| + 2;
    forall i | 0 <= i < |u[1..]| ensures u[1..][i] !in ['[', ']', '-', CTLESC] {
      assert u[1..][i] == (":" + name + ":")[i];
      if 0 < i <= |name| { assert u[1..][i] == name[i - 1]; }
    }
    forall k | 2 <= k < n ensures t[k] != ':' { assert t[k] == name[k - 2] && name[k - 2] in name; }
    ClassEndFound(t, 2, n);
    assert t[1] == ':' && ScanItem(t, 0) == Some((Single('['), 1));
    MeaninglessScanned(u, 1);
    var items := [Single('[')] + ScanItems(t, 1).items;
    assert ScanItems(t, 0) == Closed(items, |t|);
    OneBracket(loc, "[", "", t, x);
    assert "[" + t == "[" + u + "]";
    hide ScanItems, GlobMatches, WellFormed, ScanItem;
    forall k | 0 <= k < |u| ensures items[k] == Single(u[k]) {}
    if x in u {
      var k :| 0 <= k < |u| && u[k] == x;
      assert ItemHas(loc, items[k], x);
    }
  }

  /** A bracket that is never closed is an ordinary character. */
  lemma OpenBracket(loc: Locale, rest: string, s: string)
    requires WellFormed(rest, 0) && WellFormed("[" + rest, 0) && forall i :: 0 <= i < |rest| ==> rest[i] != ']'
    ensures GlobMatches(loc, "[" + rest, s) <==> s != "" && s[0] == '[' && GlobMatches(loc, rest, s[1..])
  {
    var p := "[" + rest;
    NeverClosed(p, AfterNegation(p, 1));
    ByteThenRest(loc, "[", rest, Lit('['), s);
  }

  lemma {:induction false} NeverClosed(p: string, i: nat)
    requires i <= |p| && forall k :: 0 <= k < |p| ==> p[k] != ']'
    ensures !ScanItems(p, i).Closed?
    decreases |p| - i
  {
    hide ScanItem;
    if i < |p| && ScanItem(p, i).Some? { NeverClosed(p, ScanItem(p, i).value.1); }
  }
}
