/** The flat SQL twin of the GM-block stripper: two regexp_replace calls (`gm_stripped_sql`). */
module SecretsSql {
  import opened Common
  import opened Secrets

  // ----- The two patterns -----

  function NextToken(t: string, i: nat): (j: nat)
    requires i <= |t|
    ensures i <= j <= |t|
    ensures j < |t| ==> Token(t, j)
    ensures forall k :: i <= k < j ==> !Token(t, k)
    decreases |t| - i
  {
    if i == |t| || Token(t, i) then i else NextToken(t, i + 1)
  }

  /** NESTED_GM_BLOCK_SQL_PATTERN and ARTICLE_GM_BLOCK_SQL_PATTERN. */
  datatype Pattern = NestedBlock | FlatBlock

  /** End of the match of `p` that starts at `i`. */
  function MatchEnd(p: Pattern, t: string, i: nat): (e: Option<nat>)
    requires i <= |t|
    ensures e.Some? ==> OpensGm(t, i) && i + 5 <= e.value <= |t|
  {
    if !OpensGm(t, i) then None
    else
      var j := NextToken(t, i + 5);
      match p
      case NestedBlock => if Named(t, j) then Some(|t|) else None
      case FlatBlock => Some(if j == |t| then j else j + 3)
  }

  /** The words the pattern matches, as regular expressions read them: the nested pattern needs a first
      container after its opener, the flat one ends at a ":::" or at the end of the text. */
  ghost predicate Matches(p: Pattern, t: string, i: nat, e: nat)
    requires i <= |t|
  {
    OpensGm(t, i) && i + 5 <= e <= |t| &&
    match p
    case NestedBlock =>
      exists j :: i + 5 <= j && j + 4 <= e && Named(t, j) && forall k :: i + 5 <= k < j ==> !Token(t, k)
    case FlatBlock => e == |t| || (i + 8 <= e && Token(t, e - 3))
  }

  /** The nested pattern starts greedily and takes its longest match, the flat one starts lazily and takes
      its shortest. */
  lemma MatchEndIsTheMatch(p: Pattern, t: string, i: nat, e: nat)
    requires i <= |t|
    ensures MatchEnd(p, t, i).Some? ==> Matches(p, t, i, MatchEnd(p, t, i).value)
    ensures Matches(p, t, i, e) ==> MatchEnd(p, t, i).Some? &&
                                    if p.NestedBlock? then e <= MatchEnd(p, t, i).value
                                    else MatchEnd(p, t, i).value <= e
  {
    if OpensGm(t, i) {
      var j := NextToken(t, i + 5);
      if p.NestedBlock? && Matches(p, t, i, e) {
        var k :| i + 5 <= k && k + 4 <= e && Named(t, k) && forall l :: i + 5 <= l < k ==> !Token(t, l);
        assert j == k;
      }
    }
  }

  /** Global replacement from position `i` on; the text since `from` has been passed without a match. */
  function RegexpReplace(p: Pattern, t: string, r: string, from: nat, i: nat): string
    requires from <= i <= |t|
    decreases |t| - i
  {
    if i == |t| then t[from..]
    else match MatchEnd(p, t, i)
      case None => RegexpReplace(p, t, r, from, i + 1)
      case Some(e) => t[from..i] + r + RegexpReplace(p, t, r, e, e)
  }

  /** `gm_stripped_sql` */
  function GmStrippedSql(t: string, r: string): string {
    RegexpReplace(FlatBlock, RegexpReplace(NestedBlock, t, r, 0, 0), r, 0, 0)
  }

  // ----- The condition under which the flat reading fails -----

  predicate NestsAt(t: string, i: nat) {
    OpensGm(t, i) && Named(t, NextToken(t, i + 5))
  }

  /** Where the nested pattern cuts the text. */
  function FirstNest(t: string, i: nat): (c: nat)
    requires i <= |t|
    ensures i <= c <= |t|
    ensures c < |t| ==> NestsAt(t, c)
    ensures forall k: nat :: i <= k < c ==> !NestsAt(t, k)
    decreases |t| - i
  {
    if i == |t| || NestsAt(t, i) then i else FirstNest(t, i + 1)
  }

  /** Before any block that holds a container, a block starts on the last colons of the ":::" that closed the
      block before it. */
  predicate Clash(t: string, i: nat, from: nat)
    requires i <= |t|
    decreases |t| - i
  {
    i < |t| &&
    if OpensGm(t, i) then
      !NestsAt(t, i) && (i < from || var e := BlockEnd(t, i + 5); Clash(t, e - 2, e))
    else Clash(t, i + 1, from)
  }

  // ----- Proof -----

  lemma {:induction false} CutAtFirstNest(t: string, r: string, i: nat)
    requires i <= |t|
    ensures RegexpReplace(NestedBlock, t, r, 0, i) ==
            t[..FirstNest(t, i)] + if FirstNest(t, i) < |t| then r else ""
    decreases |t| - i
  {
    if i < |t| && !NestsAt(t, i) {
      CutAtFirstNest(t, r, i + 1);
    }
  }

  lemma {:induction false} FirstNestFrom(t: string, i: nat, k: nat)
    requires i <= k <= |t|
    requires forall l: nat :: i <= l < k ==> !NestsAt(t, l)
    ensures FirstNest(t, i) == FirstNest(t, k)
    decreases k - i
  {
    if i < k {
      FirstNestFrom(t, i + 1, k);
    }
  }

  /** A block without a container ends at its first ":::". */
  lemma {:induction false} FlatBlockEnd(t: string, i: nat)
    requires i <= |t| && !Named(t, NextToken(t, i))
    ensures BlockEnd(t, i) == if NextToken(t, i) == |t| then |t| else NextToken(t, i) + 3
    ensures !BlockNests(t, i)
    decreases |t| - i
  {
    if i < |t| && !Token(t, i) {
      FlatBlockEnd(t, i + 1);
    }
  }

  lemma {:induction false} NextTokenInPrefix(t: string, c: nat, i: nat)
    requires i <= c <= |t|
    ensures NextToken(t[..c], i) == if NextToken(t, i) + 3 <= c then NextToken(t, i) else c
    decreases c - i
  {
    if i < c {
      if Token(t, i) {
        assert i + 3 <= c ==> Token(t[..c], i);
        if c < i + 3 {
          NoTokenAtTheEnd(t[..c], i);
        }
      } else {
        NextTokenInPrefix(t, c, i + 1);
        assert !Token(t[..c], i);
      }
    }
  }

  lemma {:induction false} NoTokenAtTheEnd(t: string, i: nat)
    requires |t| - 2 <= i <= |t|
    ensures NextToken(t, i) == |t|
    decreases |t| - i
  {
    if i < |t| {
      NoTokenAtTheEnd(t, i + 1);
    }
  }

  lemma {:induction false} SkipUnmatched(p: Pattern, t: string, r: string, from: nat, i: nat, k: nat)
    requires from <= i <= k <= |t|
    requires forall l: nat :: i <= l < k ==> MatchEnd(p, t, l).None?
    ensures RegexpReplace(p, t, r, from, i) == RegexpReplace(p, t, r, from, k)
    decreases k - i
  {
    if i < k {
      SkipUnmatched(p, t, r, from, i + 1, k);
    }
  }

  lemma {:induction false} StartsWithPassed(p: Pattern, t: string, r: string, from: nat, i: nat)
    requires from <= i <= |t|
    ensures t[from..i] <= RegexpReplace(p, t, r, from, i)
    decreases |t| - i
  {
    if i < |t| && MatchEnd(p, t, i).None? {
      StartsWithPassed(p, t, r, from, i + 1);
    }
  }

  lemma {:induction false} FirstTokenNests(t: string, i: nat)
    requires i <= |t| && Named(t, NextToken(t, i))
    ensures BlockNests(t, i)
    decreases |t| - i
  {
    if i < |t| && !Token(t, i) {
      FirstTokenNests(t, i + 1);
    }
  }

  lemma {:induction false} ClashTail(t: string, i: nat, from: nat)
    requires |t| - 4 <= i <= |t|
    ensures !Clash(t, i, from) && FirstNest(t, i) == |t|
    decreases |t| - i
  {
    if i < |t| {
      ClashTail(t, i + 1, from);
    }
  }

  lemma PrefixCancel(a: string, x: string, y: string)
    ensures a + x <= a + y <==> x <= y
  {
    if a + x <= a + y {
      forall k | 0 <= k < |x| ensures x[k] == y[k] {
        assert (a + x)[|a| + k] == (a + y)[|a| + k];
      }
    }
  }

  /** What the twin keeps of `t` from `i` on, and what it should not exceed. */
  function SqlKeeps(t: string, i: nat, from: nat): string
    requires from <= i <= |t|
  {
    RegexpReplace(FlatBlock, t[..FirstNest(t, i)], "", from, i)
  }

  ghost predicate TwinHolds(t: string, i: nat, from: nat)
    requires from <= i <= |t|
  {
    Agree(SqlKeeps(t, i, from), View(t, i, from), Clash(t, i, from), ViewNests(t, i))
  }

  /** The twin keeps a prefix of the view unless there is a clash, and all of it if moreover nothing nests. */
  ghost predicate Agree(keeps: string, view: string, clash: bool, nests: bool) {
    && (keeps <= view <==> !clash)
    && (!clash && !nests ==> keeps == view)
  }

  /** One match of the flat pattern in the text cut at `c`. */
  lemma ReplaceAtMatch(t: string, c: nat, from: nat, i: nat)
    requires from <= i && i + 5 <= c <= |t| && OpensGm(t, i)
    ensures var m := if NextToken(t, i + 5) + 3 <= c then NextToken(t, i + 5) + 3 else c;
            RegexpReplace(FlatBlock, t[..c], "", from, i) ==
            t[from..i] + RegexpReplace(FlatBlock, t[..c], "", m, m)
  {
    var u := t[..c];
    NextTokenInPrefix(t, c, i + 5);
    var m := MatchEnd(FlatBlock, u, i).value;
    assert u[from..i] == t[from..i];
    assert u[from..i] + "" + RegexpReplace(FlatBlock, u, "", m, m) ==
           t[from..i] + RegexpReplace(FlatBlock, u, "", m, m);
  }

  /** A block that closes at `e`, within the cut. */
  lemma FlatPasses(t: string, c: nat, from: nat, i: nat, e: nat)
    requires from <= i && i + 8 <= e <= c <= |t| && OpensGm(t, i) && NextToken(t, i + 5) == e - 3
    ensures RegexpReplace(FlatBlock, t[..c], "", from, i) == t[from..i] + RegexpReplace(FlatBlock, t[..c], "", e, e)
  {
    ReplaceAtMatch(t, c, from, i);
  }

  /** A block that does not close within the cut. */
  lemma FlatStops(t: string, c: nat, from: nat, i: nat)
    requires from <= i && i + 5 <= c <= |t| && OpensGm(t, i) && NextToken(t, i + 5) + 3 > c
    ensures RegexpReplace(FlatBlock, t[..c], "", from, i) == t[from..i]
  {
    ReplaceAtMatch(t, c, from, i);
    assert t[..c][c..] == "";
    assert t[from..i] + "" == t[from..i];
  }

  lemma ViewPasses(t: string, i: nat, from: nat, e: nat)
    requires from <= i && i + 8 <= e <= |t| && OpensGm(t, i) && BlockEnd(t, i + 5) == e
    ensures View(t, i, from) == t[from..i] + View(t, e - 2, e)
  {
  }

  /** An unclosed block shows nothing more in either reading. */
  lemma ViewUnclosed(t: string, i: nat, from: nat)
    requires from <= i <= |t| && OpensGm(t, i) && NextToken(t, i + 5) == |t|
    ensures View(t, i, from) == t[from..i]
    ensures !Clash(t, i, from)
  {
    FlatBlockEnd(t, i + 5);
    ViewTail(t, |t| - 2, |t|);
    ClashTail(t, |t| - 2, |t|);
  }

  lemma TwinUnclosed(t: string, i: nat, from: nat)
    requires from <= i <= |t| && OpensGm(t, i) && NextToken(t, i + 5) == |t|
    ensures TwinHolds(t, i, from)
  {
    FirstNestFrom(t, i, |t|);
    FlatStops(t, |t|, from, i);
    ViewUnclosed(t, i, from);
  }

  /** The block at `i` closes on colons that a nesting block reuses: the nested pattern cuts those colons, so
      the flat one finds no end. */
  lemma TwinCutInsideClose(t: string, i: nat, from: nat, e: nat)
    requires from <= i && i + 8 <= e <= |t| && OpensGm(t, i) && !NestsAt(t, i)
    requires NextToken(t, i + 5) == e - 3 && BlockEnd(t, i + 5) == e && FirstNest(t, i) == FirstNest(t, e - 2) < e
    ensures TwinHolds(t, i, from)
  {
    var c := FirstNest(t, i);
    FlatStops(t, c, from, i);
    CutShowsLess(t, e, c);
    ViewPasses(t, i, from, e);
  }

  /** A nesting block on the last colons of a ":::" nests, and is no clash. */
  lemma CutShowsLess(t: string, e: nat, c: nat)
    requires 3 <= e <= |t| && c == FirstNest(t, e - 2) < e && Token(t, e - 3)
    ensures ViewNests(t, e - 2) && !Clash(t, e - 2, e)
  {
    FirstTokenNests(t, c + 5);
    assert c == e - 2 || (c == e - 1 && !OpensGm(t, e - 2));
    assert c == e - 1 ==> ViewNests(t, e - 2) == ViewNests(t, e - 1) && Clash(t, e - 2, e) == Clash(t, e - 1, e);
  }

  /** A text that goes on like `t` after the close at `e - 3` completes the opener at `o`. */
  lemma OpenerContinues(t: string, e: nat, o: nat, y: string)
    requires 3 <= e <= |t| && e - 2 <= o < e && Token(t, e - 3) && OpensGm(t, o)
    requires t[e..o + 5] <= y
    ensures !NoOpener(":::" + y)
  {
    assert o == e - 2 ==> y[0] == t[e] && y[1] == t[e + 1] && y[2] == t[e + 2];
    assert o == e - 1 ==> y[0] == t[e] && y[1] == t[e + 1] && y[2] == t[e + 2] && y[3] == t[e + 3];
    assert OpensGm(":::" + y, o + 3 - e);
  }

  /** The twin shows the text of a flat block that reuses the closing colons at `e - 3`; the stripper never does. */
  lemma ClashShows(t: string, c: nat, e: nat, o: nat)
    requires 3 <= e <= |t| && Bare(t, e - 3) && e - 2 <= o < e && OpensGm(t, o) && o + 5 <= c <= |t|
    ensures !(RegexpReplace(FlatBlock, t[..c], "", e, e) <= View(t, e - 2, e))
  {
    var u := t[..c];
    var x, y := RegexpReplace(FlatBlock, u, "", e, e), View(t, e - 2, e);
    SkipUnmatched(FlatBlock, u, "", e, e, o + 5);
    StartsWithPassed(FlatBlock, u, "", e, o + 5);
    assert t[e..o + 5] == u[e..o + 5] <= x;
    ViewIsSafe(t, e - 2, e);
    if x <= y {
      OpenerContinues(t, e, o, y);
    }
  }

  lemma ClashBreaks(t: string, c: nat, i: nat, from: nat, e: nat, o: nat)
    requires from <= i && i + 8 <= e <= c <= |t| && OpensGm(t, i)
    requires NextToken(t, i + 5) == e - 3 && BlockEnd(t, i + 5) == e
    requires Bare(t, e - 3) && e - 2 <= o < e && OpensGm(t, o) && o + 5 <= c
    ensures !(RegexpReplace(FlatBlock, t[..c], "", from, i) <= View(t, i, from))
  {
    var x, y := RegexpReplace(FlatBlock, t[..c], "", e, e), View(t, e - 2, e);
    assert !(x <= y) by {
      ClashShows(t, c, e, o);
    }
    assert RegexpReplace(FlatBlock, t[..c], "", from, i) == t[from..i] + x by {
      FlatPasses(t, c, from, i, e);
    }
    assert View(t, i, from) == t[from..i] + y by {
      ViewPasses(t, i, from, e);
    }
    PrefixCancel(t[from..i], x, y);
  }

  lemma ClashPasses(t: string, i: nat, from: nat, e: nat)
    requires from <= i < |t| && i + 8 <= e <= |t| && OpensGm(t, i) && !NestsAt(t, i) && BlockEnd(t, i + 5) == e
    requires Clash(t, e - 2, e)
    ensures Clash(t, i, from)
  {
  }

  lemma AgreeOnClash(keeps: string, view: string, nests: bool)
    requires !(keeps <= view)
    ensures Agree(keeps, view, true, nests)
  {
  }

  /** The block at `i` closes on colons that a flat block reuses. */
  lemma TwinClashes(t: string, i: nat, from: nat, e: nat, o: nat)
    requires from <= i && i + 8 <= e <= |t| && OpensGm(t, i) && !NestsAt(t, i)
    requires NextToken(t, i + 5) == e - 3 && BlockEnd(t, i + 5) == e && FirstNest(t, i) >= e
    requires Bare(t, e - 3) && e - 2 <= o < e && OpensGm(t, o) && o + 5 <= FirstNest(t, i)
    requires Clash(t, e - 2, e)
    ensures TwinHolds(t, i, from)
  {
    ClashBreaks(t, FirstNest(t, i), i, from, e, o);
    ClashPasses(t, i, from, e);
    AgreeOnClash(SqlKeeps(t, i, from), View(t, i, from), ViewNests(t, i));
  }

  lemma ClashAt(t: string, i: nat, e: nat, o: nat)
    requires 3 <= e <= |t| && e - 2 <= o < e && OpensGm(t, o) && i + 2 <= e <= FirstNest(t, i)
    ensures Clash(t, e - 2, e) && o + 5 <= FirstNest(t, i)
  {
    assert !NestsAt(t, o);
    assert o == e - 2 || !OpensGm(t, e - 2);
    assert o == e - 1 ==> Clash(t, e - 2, e) == Clash(t, e - 1, e);
    assert FirstNest(t, i) < |t| ==> Token(t, FirstNest(t, i));
  }

  lemma SearchPassesClose(t: string, e: nat)
    requires 2 <= e <= |t| && !OpensGm(t, e - 2) && !OpensGm(t, e - 1)
    ensures View(t, e - 2, e) == View(t, e, e)
    ensures Clash(t, e - 2, e) == Clash(t, e, e)
    ensures ViewNests(t, e - 2) == ViewNests(t, e)
  {
    assert View(t, e - 2, e) == View(t, e - 1, e);
    assert Clash(t, e - 2, e) == Clash(t, e - 1, e);
    assert ViewNests(t, e - 2) == ViewNests(t, e - 1);
  }

  lemma AgreePrepend(p: string, keeps: string, view: string, clash: bool, nests: bool)
    requires Agree(keeps, view, clash, nests)
    ensures Agree(p + keeps, p + view, clash, nests)
  {
    PrefixCancel(p, keeps, view);
  }

  lemma KeepsStep(t: string, i: nat, from: nat, e: nat)
    requires from <= i && i + 8 <= e <= |t| && OpensGm(t, i) && NextToken(t, i + 5) == e - 3
    requires FirstNest(t, i) >= e && FirstNest(t, i) == FirstNest(t, e)
    ensures SqlKeeps(t, i, from) == t[from..i] + SqlKeeps(t, e, e)
  {
    FlatPasses(t, FirstNest(t, i), from, i, e);
  }

  lemma ViewStep(t: string, i: nat, from: nat, e: nat)
    requires from <= i && i + 8 <= e <= |t| && OpensGm(t, i) && BlockEnd(t, i + 5) == e
    requires !OpensGm(t, e - 2) && !OpensGm(t, e - 1)
    ensures View(t, i, from) == t[from..i] + View(t, e, e)
  {
    ViewPasses(t, i, from, e);
    SearchPassesClose(t, e);
  }

  lemma FlagsStep(t: string, i: nat, from: nat, e: nat)
    requires from <= i && i + 8 <= e <= |t| && OpensGm(t, i) && !NestsAt(t, i) && BlockEnd(t, i + 5) == e
    requires !OpensGm(t, e - 2) && !OpensGm(t, e - 1) && !BlockNests(t, i + 5)
    ensures Clash(t, i, from) == Clash(t, e, e) && ViewNests(t, i) == ViewNests(t, e)
  {
    SearchPassesClose(t, e);
    assert Clash(t, i, from) == Clash(t, e - 2, e);
    assert ViewNests(t, i) == ViewNests(t, e - 2);
  }

  lemma TwinSteps(t: string, i: nat, from: nat, e: nat)
    requires from <= i && i + 8 <= e <= |t| && OpensGm(t, i) && !NestsAt(t, i)
    requires NextToken(t, i + 5) == e - 3 && BlockEnd(t, i + 5) == e && FirstNest(t, i) >= e
    requires !OpensGm(t, e - 2) && !OpensGm(t, e - 1) && !BlockNests(t, i + 5)
    requires TwinHolds(t, e, e) && FirstNest(t, i) == FirstNest(t, e)
    ensures TwinHolds(t, i, from)
  {
    KeepsStep(t, i, from, e);
    ViewStep(t, i, from, e);
    FlagsStep(t, i, from, e);
    AgreePrepend(t[from..i], SqlKeeps(t, e, e), View(t, e, e), Clash(t, e, e), ViewNests(t, e));
  }

  lemma NoOpenerInBlock(t: string, i: nat, e: nat, l: nat)
    requires i + 8 <= e <= |t| && OpensGm(t, i) && !NestsAt(t, i) && e == NextToken(t, i + 5) + 3
    requires i < l < e - 2
    ensures !OpensGm(t, l)
  {
    assert i + 5 <= l < e - 3 ==> !Token(t, l);
  }

  lemma FirstNestAfterBlock(t: string, i: nat, e: nat)
    requires i + 8 <= e <= |t| && OpensGm(t, i) && !NestsAt(t, i) && e == NextToken(t, i + 5) + 3
    ensures FirstNest(t, i) == FirstNest(t, e - 2)
    ensures !OpensGm(t, e - 2) && !OpensGm(t, e - 1) ==> FirstNest(t, i) == FirstNest(t, e)
  {
    forall l: nat | i < l < e - 2 ensures !NestsAt(t, l) {
      NoOpenerInBlock(t, i, e, l);
    }
    FirstNestFrom(t, i, e - 2);
    if !OpensGm(t, e - 2) && !OpensGm(t, e - 1) {
      FirstNestFrom(t, e - 2, e);
    }
  }

  /** The block at `i` closes at `e` and does not nest; `Twin` supplies the rest of the text when the next opener
      leaves the closing colons alone. */
  lemma TwinClosed(t: string, i: nat, from: nat, e: nat)
    requires from <= i && i + 8 <= e <= |t| && OpensGm(t, i) && !NestsAt(t, i)
    requires e == NextToken(t, i + 5) + 3
    requires TwinHolds(t, e, e)
    ensures TwinHolds(t, i, from)
  {
    FlatBlockEnd(t, i + 5);
    FirstNestAfterBlock(t, i, e);
    if FirstNest(t, i) < e {
      TwinCutInsideClose(t, i, from, e);
    } else if OpensGm(t, e - 2) {
      ClashAt(t, i, e, e - 2);
      TwinClashes(t, i, from, e, e - 2);
    } else if OpensGm(t, e - 1) {
      ClashAt(t, i, e, e - 1);
      TwinClashes(t, i, from, e, e - 1);
    } else {
      TwinSteps(t, i, from, e);
    }
  }

  /** The nested pattern cuts the text where a nesting block opens. */
  lemma TwinNested(t: string, i: nat, from: nat)
    requires from <= i <= |t| && NestsAt(t, i)
    ensures TwinHolds(t, i, from)
  {
    FirstTokenNests(t, i + 5);
    assert SqlKeeps(t, i, from) == t[..i][from..] == t[from..i];
  }

  lemma {:induction false} Twin(t: string, i: nat, from: nat)
    requires from <= i <= |t|
    ensures TwinHolds(t, i, from)
    decreases |t| - i
  {
    if i == |t| {
      assert t[..|t|] == t;
    } else if !OpensGm(t, i) {
      Twin(t, i + 1, from);
    } else if NestsAt(t, i) {
      TwinNested(t, i, from);
    } else if NextToken(t, i + 5) == |t| {
      TwinUnclosed(t, i, from);
    } else {
      Twin(t, NextToken(t, i + 5) + 3, NextToken(t, i + 5) + 3);
      TwinClosed(t, i, from, NextToken(t, i + 5) + 3);
    }
  }

  // ----- What the twin promises -----

  /** With an empty replacement, the database shows a prefix of what the stripper shows exactly when no flat block
      reuses the closing colons of the block before it; and the two agree when moreover no block nests. */
  lemma TwinFailsClosedIff(t: string)
    ensures GmStrippedSql(t, "") <= View(t, 0, 0) <==> !Clash(t, 0, 0)
    ensures !ViewNests(t, 0) ==> (GmStrippedSql(t, "") == View(t, 0, 0) <==> !Clash(t, 0, 0))
  {
    CutAtFirstNest(t, "", 0);
    assert t[..FirstNest(t, 0)] + "" == t[..FirstNest(t, 0)];
    Twin(t, 0, 0);
  }

  /** Four colons in front of "gm". */
  ghost predicate FusedOpener(t: string, k: int) {
    0 <= k < |t| && t[k] == ':' && OpensGm(t, k + 1)
  }

  lemma {:induction false} NoClash(t: string, i: nat, from: nat)
    requires i <= |t| && from <= i + 2 && from <= |t|
    requires forall k :: !FusedOpener(t, k)
    requires from == 0 || from == |t| || Bare(t, from - 3)
    ensures !Clash(t, i, from)
    decreases |t| - i
  {
    if i == |t| {
    } else if OpensGm(t, i) {
      assert !FusedOpener(t, i - 1);
      var e := BlockEnd(t, i + 5);
      BlockEndIsClose(t, i + 5);
      NoClash(t, e - 2, e);
    } else {
      NoClash(t, i + 1, from);
    }
  }

  /** In particular the twin fails closed on every text without a run of four colons. */
  lemma TwinFailsClosed(t: string)
    requires forall k :: Token(t, k) ==> !Token(t, k + 1)
    ensures GmStrippedSql(t, "") <= View(t, 0, 0)
    ensures !ViewNests(t, 0) ==> GmStrippedSql(t, "") == View(t, 0, 0)
  {
    forall k ensures !FusedOpener(t, k) {
      assert Token(t, k) ==> !Token(t, k + 1);
    }
    NoClash(t, 0, 0);
    TwinFailsClosedIff(t);
  }

  /** The four-colon text that defeats the flat reading: the stripper hides everything, the twin does not. */
  lemma FourColonsDefeatTwin()
    ensures View(":::gm::::gm", 0, 0) == ""
    ensures !ViewNests(":::gm::::gm", 0)
    ensures !(GmStrippedSql(":::gm::::gm", "") <= "")
  {
    var t := ":::gm::::gm";
    assert NextToken(t, 5) == 5 && Bare(t, 5) && BlockEnd(t, 5) == 8;
    assert OpensGm(t, 6) && NextToken(t, 11) == 11 && BlockEnd(t, 11) == 11;
    ViewTail(t, 9, 11);
    assert View(t, 6, 8) == "" + View(t, 9, 11);
    assert Clash(t, 6, 8);
    assert Clash(t, 0, 0);
    TwinFailsClosedIff(t);
  }

  // ----- The replacement used in production is a single space -----

  function Join(pieces: seq<string>, separator: string): string {
    if |pieces| == 0 then ""
    else if |pieces| == 1 then pieces[0]
    else pieces[0] + separator + Join(pieces[1..], separator)
  }

  lemma JoinCons(piece: string, rest: seq<string>, separator: string)
    requires |rest| > 0
    ensures Join([piece] + rest, separator) == piece + separator + Join(rest, separator)
  {
    assert ([piece] + rest)[1..] == rest;
  }

  lemma {:induction false} NextTokenBeforeTail(u: string, tail: string, i: nat)
    requires i <= |u| && (tail == "" || tail == " ")
    ensures NextToken(u + tail, i) == if NextToken(u, i) < |u| then NextToken(u, i) else |u + tail|
    decreases |u| - i
  {
    assert Token(u + tail, i) == Token(u, i);
    if i < |u| {
      if !Token(u, i) {
        NextTokenBeforeTail(u, tail, i + 1);
      }
    } else if tail == " " {
      assert NextToken(u + tail, |u| + 1) == |u| + 1;
    }
  }

  datatype Cut = Cut(start: nat, stop: nat)

  /** Slices of `t` from `from` on, one after the other. */
  ghost predicate Consecutive(t: string, cuts: seq<Cut>, from: nat) {
    && (forall i :: 0 <= i < |cuts| ==> from <= cuts[i].start <= cuts[i].stop <= |t|)
    && (forall i, j :: 0 <= i < j < |cuts| ==> cuts[i].stop <= cuts[j].start)
  }

  ghost predicate Within(t: string, cuts: seq<Cut>) {
    forall i :: 0 <= i < |cuts| ==> cuts[i].start <= cuts[i].stop <= |t|
  }

  ghost function Pieces(t: string, cuts: seq<Cut>): (pieces: seq<string>)
    requires Within(t, cuts)
    ensures |pieces| == |cuts|
  {
    if cuts == [] then [] else [t[cuts[0].start..cuts[0].stop]] + Pieces(t, cuts[1..])
  }

  lemma PiecesCons(t: string, cut: Cut, rest: seq<Cut>)
    requires cut.start <= cut.stop <= |t| && Within(t, rest)
    ensures Within(t, [cut] + rest) && Pieces(t, [cut] + rest) == [t[cut.start..cut.stop]] + Pieces(t, rest)
  {
    assert ([cut] + rest)[1..] == rest;
  }

  lemma LastPiece(t: string)
    ensures Pieces(t, [Cut(|t|, |t|)]) == [""]
  {
    var last := Cut(|t|, |t|);
    PiecesCons(t, last, []);
    assert [last] + [] == [last];
    assert Pieces(t, []) == [] && t[|t|..|t|] == "";
  }

  lemma ConsecutiveFrom(t: string, cuts: seq<Cut>, from: nat, earlier: nat)
    requires Consecutive(t, cuts, from) && earlier <= from
    ensures Consecutive(t, cuts, earlier)
  {
  }

  lemma ConsecutiveCons(t: string, cut: Cut, rest: seq<Cut>, from: nat, next: nat)
    requires from <= cut.start <= cut.stop <= next && cut.stop <= |t| && Consecutive(t, rest, next)
    ensures Consecutive(t, [cut] + rest, from)
  {
  }

  lemma {:induction false} PiecesOfPrefix(t: string, c: nat, cuts: seq<Cut>)
    requires c <= |t| && Within(t[..c], cuts)
    ensures Within(t, cuts) && Pieces(t, cuts) == Pieces(t[..c], cuts)
  {
    if cuts != [] {
      PiecesOfPrefix(t, c, cuts[1..]);
      assert t[..c][cuts[0].start..cuts[0].stop] == t[cuts[0].start..cuts[0].stop];
    }
  }

  lemma SpacedEnd(u: string, tail: string, from: nat) returns (cuts: seq<Cut>)
    requires from <= |u| && (tail == "" || tail == " ")
    ensures cuts != [] && Consecutive(u, cuts, from)
    ensures Join(Pieces(u, cuts), " ") == RegexpReplace(FlatBlock, u + tail, " ", from, |u|)
    ensures Join(Pieces(u, cuts), "") == u[from..]
  {
    var w := u + tail;
    var all := Cut(from, |u|);
    var rest := if tail == "" then [] else [Cut(|u|, |u|)];
    cuts := [all] + rest;
    PiecesCons(u, all, rest);
    LastPiece(u);
    assert w[from..] == u[from..] + tail;
    if tail == " " {
      assert RegexpReplace(FlatBlock, w, " ", from, |u|) == RegexpReplace(FlatBlock, w, " ", from, |w|);
      assert Join([u[from..], ""], " ") == u[from..] + " " + Join([""], " ");
    }
  }

  lemma SpacedBlock(u: string, tail: string, from: nat, i: nat)
    requires from <= i <= |u| && (tail == "" || tail == " ") && OpensGm(u, i)
    ensures var j := NextToken(u, i + 5);
            && RegexpReplace(FlatBlock, u + tail, " ", from, i) ==
               u[from..i] + " " + (if j == |u| then "" else RegexpReplace(FlatBlock, u + tail, " ", j + 3, j + 3))
            && RegexpReplace(FlatBlock, u, "", from, i) ==
               u[from..i] + "" + (if j == |u| then "" else RegexpReplace(FlatBlock, u, "", j + 3, j + 3))
  {
    var w := u + tail;
    NextTokenBeforeTail(u, tail, i + 5);
    assert OpensGm(w, i) && w[from..i] == u[from..i];
  }

  lemma SpacedSkip(u: string, tail: string, from: nat, i: nat)
    requires from <= i < |u| && (tail == "" || tail == " ") && !OpensGm(u, i)
    ensures RegexpReplace(FlatBlock, u + tail, " ", from, i) == RegexpReplace(FlatBlock, u + tail, " ", from, i + 1)
    ensures RegexpReplace(FlatBlock, u, "", from, i) == RegexpReplace(FlatBlock, u, "", from, i + 1)
  {
    assert !OpensGm(u + tail, i);
  }

  lemma {:induction false} SpacedPieces(u: string, tail: string, from: nat, i: nat) returns (cuts: seq<Cut>)
    requires from <= i <= |u| && (tail == "" || tail == " ")
    ensures cuts != [] && Consecutive(u, cuts, from)
    ensures Join(Pieces(u, cuts), " ") == RegexpReplace(FlatBlock, u + tail, " ", from, i)
    ensures Join(Pieces(u, cuts), "") == RegexpReplace(FlatBlock, u, "", from, i)
    decreases |u| - i
  {
    if i == |u| {
      cuts := SpacedEnd(u, tail, from);
    } else if !OpensGm(u, i) {
      cuts := SpacedPieces(u, tail, from, i + 1);
      SpacedSkip(u, tail, from, i);
    } else {
      var j := NextToken(u, i + 5);
      var rest := [Cut(|u|, |u|)];
      if j < |u| {
        rest := SpacedPieces(u, tail, j + 3, j + 3);
        ConsecutiveFrom(u, rest, j + 3, i);
      } else {
        LastPiece(u);
      }
      cuts := SpacedCons(u, tail, from, i, rest);
    }
  }

  /** The text before a block and the pieces after it. */
  lemma SpacedCons(u: string, tail: string, from: nat, i: nat, rest: seq<Cut>) returns (cuts: seq<Cut>)
    requires from <= i <= |u| && (tail == "" || tail == " ") && OpensGm(u, i)
    requires rest != [] && Consecutive(u, rest, i)
    requires var j := NextToken(u, i + 5);
             && Join(Pieces(u, rest), " ") ==
                (if j == |u| then "" else RegexpReplace(FlatBlock, u + tail, " ", j + 3, j + 3))
             && Join(Pieces(u, rest), "") == (if j == |u| then "" else RegexpReplace(FlatBlock, u, "", j + 3, j + 3))
    ensures cuts != [] && Consecutive(u, cuts, from)
    ensures Join(Pieces(u, cuts), " ") == RegexpReplace(FlatBlock, u + tail, " ", from, i)
    ensures Join(Pieces(u, cuts), "") == RegexpReplace(FlatBlock, u, "", from, i)
  {
    SpacedBlock(u, tail, from, i);
    cuts := [Cut(from, i)] + rest;
    ConsecutiveCons(u, Cut(from, i), rest, from, i);
    PiecesCons(u, Cut(from, i), rest);
    JoinCons(u[from..i], Pieces(u, rest), " ");
    JoinCons(u[from..i], Pieces(u, rest), "");
  }

  /** With the default replacement the database text consists of consecutive slices of the text, joined by spaces: the
      same slices that it keeps with an empty replacement. Hence, without a clash, they are cut from a prefix of what
      the stripper shows. */
  lemma SpacedTwin(t: string) returns (cuts: seq<Cut>)
    ensures Consecutive(t, cuts, 0)
    ensures GmStrippedSql(t, " ") == Join(Pieces(t, cuts), " ")
    ensures GmStrippedSql(t, "") == Join(Pieces(t, cuts), "")
    ensures !Clash(t, 0, 0) ==> Join(Pieces(t, cuts), "") <= View(t, 0, 0)
  {
    var c := FirstNest(t, 0);
    CutAtFirstNest(t, "", 0);
    CutAtFirstNest(t, " ", 0);
    assert t[..c] + "" == t[..c];
    cuts := SpacedPieces(t[..c], if c < |t| then " " else "", 0, 0);
    PiecesOfPrefix(t, c, cuts);
    TwinFailsClosedIff(t);
  }
}
