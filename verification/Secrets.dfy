/** GM-only blocks inside markdown text (app/features/shared/secrets.py): the depth-tracking scanner,
    a recursive-descent reading it must agree with, and the flat SQL twin used by the database.

    A position where ":::" starts is a token. It is named when a letter follows (":::note"), and bare
    otherwise; ":::gm" in any letter case opens a GM block when met outside one. */
module Secrets {
  import opened Common

  // ----- Tokens -----

  predicate IsAlpha(c: char) {
    'A' <= c <= 'Z' || 'a' <= c <= 'z'
  }

  /** The letters of the token pattern, and no neighbours of theirs. */
  lemma Letters()
    ensures IsAlpha('A') && IsAlpha('Z') && IsAlpha('a') && IsAlpha('z')
    ensures !IsAlpha('@') && !IsAlpha('[') && !IsAlpha('`') && !IsAlpha('{')
    ensures Lower('A') == 'a' && Lower('Z') == 'z' && Lower('@') == '@' && Lower('[') == '['
  {
  }

  predicate Token(t: string, i: int) {
    0 <= i && i + 3 <= |t| && t[i] == ':' && t[i + 1] == ':' && t[i + 2] == ':'
  }

  predicate Named(t: string, i: int) {
    Token(t, i) && i + 3 < |t| && IsAlpha(t[i + 3])
  }

  predicate Bare(t: string, i: int) {
    Token(t, i) && !Named(t, i)
  }

  predicate OpensGm(t: string, i: int) {
    Token(t, i) && i + 4 < |t| && (t[i + 3] == 'g' || t[i + 3] == 'G') && (t[i + 4] == 'm' || t[i + 4] == 'M')
  }

  /** A slice as Python takes it: empty when the bounds cross. */
  function Slice(t: string, from: nat, stop: nat): string
    requires stop <= |t|
  {
    if from <= stop then t[from..stop] else ""
  }

  // ----- The reading: containers nest, a bare ":::" closes the innermost, end of text closes all -----

  /** The position just after the container whose body starts at `i`. */
  function BlockEnd(t: string, i: nat): (e: nat)
    requires i <= |t|
    ensures i <= e <= |t|
    decreases |t| - i
  {
    if i == |t| then i
    else if Named(t, i) then BlockEnd(t, BlockEnd(t, i + 4))
    else if Bare(t, i) then i + 3
    else BlockEnd(t, i + 1)
  }

  /** Whether the container whose body starts at `i` holds another container. */
  predicate BlockNests(t: string, i: nat)
    requires i <= |t|
    decreases |t| - i
  {
    i < |t| && (Named(t, i) || (!Token(t, i) && BlockNests(t, i + 1)))
  }

  /** What a reader sees when openers are looked for from `i` on and text is shown from `from` on.
      A closing ":::" at `e - 3` may lend its last colons to the next opener, so the search resumes at `e - 2`
      although the text resumes at `e`. */
  function View(t: string, i: nat, from: nat): string
    requires i <= |t| && from <= |t|
    decreases |t| - i
  {
    if i == |t| then t[from..]
    else if OpensGm(t, i) then
      var e := BlockEnd(t, i + 5);
      Slice(t, from, i) + View(t, e - 2, e)
    else View(t, i + 1, from)
  }

  predicate ViewNests(t: string, i: nat)
    requires i <= |t|
    decreases |t| - i
  {
    i < |t| && if OpensGm(t, i) then BlockNests(t, i + 5) || ViewNests(t, BlockEnd(t, i + 5) - 2)
               else ViewNests(t, i + 1)
  }

  // ----- The scanner -----

  function Lower(c: char): char {
    if 'A' <= c <= 'Z' then c + ' ' else c
  }

  /** End of the greedy run of name characters, word characters (`\w`) and hyphens, that starts at `i`. */
  function NameEnd(t: string, i: nat, word: char -> bool): (e: nat)
    requires i <= |t|
    requires !word(':')
    ensures i <= e <= |t|
    ensures forall k :: i <= k < e ==> t[k] != ':'
    ensures e == |t| || !(word(t[e]) || t[e] == '-')
    ensures i < |t| && word(t[i]) ==> i < e
    decreases |t| - i
  {
    if i < |t| && (word(t[i]) || t[i] == '-') then NameEnd(t, i + 1, word) else i
  }

  /** The container name after the token at `i`, empty for a bare token (group 1 of the token pattern). */
  function Name(t: string, i: nat, word: char -> bool): (name: string)
    requires Token(t, i) && word('m') && word('M') && !word(':')
    ensures name != "" <==> Named(t, i)
    ensures i + 3 + |name| <= |t|
    ensures forall k :: i + 3 <= k < i + 3 + |name| ==> t[k] != ':'
    ensures OpensGm(t, i) <==> |name| >= 2 && Lower(name[0]) == 'g' && Lower(name[1]) == 'm'
  {
    if Named(t, i) then t[i + 3..NameEnd(t, i + 4, word)] else ""
  }

  /** Position reached after closing `depth` containers from `i`. */
  function Close(t: string, i: nat, depth: nat): (e: nat)
    requires i <= |t|
    ensures i <= e <= |t|
    decreases depth
  {
    if depth == 0 then i else Close(t, BlockEnd(t, i), depth - 1)
  }

  lemma {:induction false} CloseSkipsName(t: string, i: nat, stop: nat, depth: nat)
    requires i <= stop <= |t| && depth > 0
    requires forall k :: i <= k < stop ==> t[k] != ':'
    ensures Close(t, i, depth) == Close(t, stop, depth)
    decreases stop - i
  {
    if i < stop {
      CloseSkipsName(t, i + 1, stop, depth);
    }
  }

  lemma {:induction false} CloseAtEnd(t: string, depth: nat)
    ensures Close(t, |t|, depth) == |t|
  {
    if depth > 0 {
      CloseAtEnd(t, depth - 1);
    }
  }

  lemma {:induction false} BlockNestsSkipsName(t: string, i: nat, stop: nat)
    requires i <= stop <= |t|
    requires forall k :: i <= k < stop ==> t[k] != ':'
    ensures BlockNests(t, i) == BlockNests(t, stop)
    decreases stop - i
  {
    if i < stop {
      BlockNestsSkipsName(t, i + 1, stop);
    }
  }

  function Max(a: nat, b: nat): nat {
    if a <= b then b else a
  }

  /** No opener fits into the last four characters. */
  lemma {:induction false} ViewTail(t: string, i: nat, from: nat)
    requires |t| - 4 <= i <= |t| && from <= |t|
    ensures View(t, i, from) == t[from..]
    ensures !ViewNests(t, i)
    decreases |t| - i
  {
    if i < |t| {
      ViewTail(t, i + 1, from);
    }
  }

  /** What the scanner still has to show when it stands at position `i` in the given state. */
  ghost function Remaining(t: string, i: nat, position: nat, depth: nat, skipUntil: nat): string
    requires i <= |t| && position <= |t| && skipUntil <= |t|
    requires depth > 0 ==> 2 <= Max(i, skipUntil)
  {
    if depth == 0 then View(t, i, position)
    else
      var e := Close(t, Max(i, skipUntil), depth);
      View(t, e - 2, e)
  }

  /** Whether what remains holds a nested container; meaningful at depth 0 and 1. */
  ghost predicate RemainingNests(t: string, i: nat, depth: nat, skipUntil: nat)
    requires i <= |t| && skipUntil <= |t|
    requires depth > 0 ==> 2 <= Max(i, skipUntil)
  {
    if depth == 0 then ViewNests(t, i)
    else BlockNests(t, Max(i, skipUntil)) || ViewNests(t, Close(t, Max(i, skipUntil), 1) - 2)
  }

  lemma PassOver(t: string, i: nat, position: nat, depth: nat, skipUntil: nat)
    requires i < |t| && position <= |t| && skipUntil <= |t| && (depth > 0 ==> 5 <= skipUntil)
    requires depth == 0 ==> !OpensGm(t, i)
    requires depth > 0 ==> i < skipUntil || !Token(t, i)
    ensures Remaining(t, i, position, depth, skipUntil) == Remaining(t, i + 1, position, depth, skipUntil)
    ensures RemainingNests(t, i, depth, skipUntil) == RemainingNests(t, i + 1, depth, skipUntil)
  {
    if depth > 0 && skipUntil <= i {
      assert BlockEnd(t, i) == BlockEnd(t, i + 1);
    }
  }

  lemma OpenBlock(t: string, i: nat, position: nat, skipUntil: nat, nameEnd: nat)
    requires i < |t| && position <= |t| && skipUntil <= |t|
    requires OpensGm(t, i) && i + 5 <= nameEnd <= |t| && forall k :: i + 3 <= k < nameEnd ==> t[k] != ':'
    ensures Remaining(t, i, position, 0, skipUntil) ==
            Slice(t, position, i) + Remaining(t, i + 1, position, 1, nameEnd)
    ensures RemainingNests(t, i, 0, skipUntil) == RemainingNests(t, i + 1, 1, nameEnd)
  {
    CloseSkipsName(t, i + 5, nameEnd, 1);
    BlockNestsSkipsName(t, i + 5, nameEnd);
    assert Close(t, i + 5, 1) == BlockEnd(t, i + 5);
  }

  lemma NestContainer(t: string, i: nat, position: nat, depth: nat, skipUntil: nat, nameEnd: nat)
    requires depth > 0 && 5 <= skipUntil <= i < |t| && position <= |t|
    requires Named(t, i) && i + 4 <= nameEnd <= |t| && forall k :: i + 3 <= k < nameEnd ==> t[k] != ':'
    ensures Remaining(t, i, position, depth, skipUntil) == Remaining(t, i + 1, position, depth + 1, nameEnd)
    ensures depth == 1 ==> RemainingNests(t, i, depth, skipUntil)
  {
    CloseSkipsName(t, i + 4, nameEnd, depth + 1);
    calc {
      Close(t, i, depth);
      Close(t, BlockEnd(t, BlockEnd(t, i + 4)), depth - 1);
      Close(t, BlockEnd(t, i + 4), depth);
      Close(t, i + 4, depth + 1);
    }
  }

  lemma CloseInnermost(t: string, i: nat, position: nat, depth: nat, skipUntil: nat)
    requires depth > 0 && 5 <= skipUntil <= i < |t| && position <= |t|
    requires Bare(t, i)
    ensures Remaining(t, i, position, depth, skipUntil) ==
            Remaining(t, i + 1, if depth == 1 then i + 3 else position, depth - 1, i + 3)
    ensures depth == 1 ==> RemainingNests(t, i, 1, skipUntil) == RemainingNests(t, i + 1, 0, i + 3)
  {
    assert BlockEnd(t, i) == i + 3;
    assert Close(t, i, depth) == Close(t, i + 3, depth - 1);
  }

  /** The loop variables of `_scan`. */
  datatype Scanner = Scanner(shown: string, position: nat, depth: nat, skipUntil: nat, nested: bool)

  /** One round of the loop of `_scan`, for the token at `i`. */
  function Visit(t: string, i: nat, word: char -> bool, s: Scanner): (r: Scanner)
    requires Token(t, i) && word('m') && word('M') && !word(':')
  {
    var name := Name(t, i, word);
    if s.depth > 0 && i < s.skipUntil then s
    else if s.depth == 0 then
      if |name| >= 2 && Lower(name[0]) == 'g' && Lower(name[1]) == 'm' then
        s.(shown := s.shown + Slice(t, s.position, i), depth := 1, skipUntil := i + 3 + |name|)
      else s
    else if name != "" then s.(depth := s.depth + 1, nested := true, skipUntil := i + 3 + |name|)
    else s.(depth := s.depth - 1, skipUntil := i + 3, position := if s.depth == 1 then i + 3 else s.position)
  }

  /** The scanner's answer is what it has collected plus what the reading says remains. */
  ghost predicate Tracks(t: string, i: nat, s: Scanner, view: string, nests: bool)
    requires i <= |t|
  {
    && s.position <= |t| && s.skipUntil <= |t|
    && (s.depth > 0 ==> 5 <= s.skipUntil)
    && (s.depth > 1 ==> s.nested)
    && view == s.shown + Remaining(t, i, s.position, s.depth, s.skipUntil)
    && nests == (s.nested || RemainingNests(t, i, s.depth, s.skipUntil))
  }

  lemma VisitOpens(t: string, i: nat, word: char -> bool, s: Scanner, view: string, nests: bool)
    requires i < |t| && OpensGm(t, i) && word('m') && word('M') && !word(':')
    requires s.depth == 0 && Tracks(t, i, s, view, nests)
    ensures Tracks(t, i + 1, Visit(t, i, word, s), view, nests)
  {
    var nameEnd := i + 3 + |Name(t, i, word)|;
    OpenBlock(t, i, s.position, s.skipUntil, nameEnd);
    ConcatAssoc(s.shown, Slice(t, s.position, i), Remaining(t, i + 1, s.position, 1, nameEnd));
  }

  lemma VisitInside(t: string, i: nat, word: char -> bool, s: Scanner, view: string, nests: bool)
    requires i < |t| && Token(t, i) && word('m') && word('M') && !word(':')
    requires s.depth > 0 && s.skipUntil <= i && Tracks(t, i, s, view, nests)
    ensures Tracks(t, i + 1, Visit(t, i, word, s), view, nests)
  {
    if Named(t, i) {
      NestContainer(t, i, s.position, s.depth, s.skipUntil, i + 3 + |Name(t, i, word)|);
    } else {
      CloseInnermost(t, i, s.position, s.depth, s.skipUntil);
    }
  }

  lemma VisitTracks(t: string, i: nat, word: char -> bool, s: Scanner, view: string, nests: bool)
    requires i < |t| && Token(t, i) && word('m') && word('M') && !word(':')
    requires Tracks(t, i, s, view, nests)
    ensures Tracks(t, i + 1, Visit(t, i, word, s), view, nests)
  {
    if (s.depth > 0 && i < s.skipUntil) || (s.depth == 0 && !OpensGm(t, i)) {
      PassOver(t, i, s.position, s.depth, s.skipUntil);
    } else if s.depth == 0 {
      VisitOpens(t, i, word, s, view, nests);
    } else {
      VisitInside(t, i, word, s, view, nests);
    }
  }

  /** `_scan`: the one-pass loop over every token position. Which characters `\w` admits beyond ASCII cannot
      matter: the result does not mention `word`. */
  method Scan(text: string, word: char -> bool) returns (shown: string, nested: bool)
    requires word('m') && word('M') && !word(':')
    ensures shown == View(text, 0, 0)
    ensures nested == ViewNests(text, 0)
  {
    var s := Scanner("", 0, 0, 0, false);
    for i := 0 to |text|
      invariant Tracks(text, i, s, View(text, 0, 0), ViewNests(text, 0))
    {
      if Token(text, i) {
        VisitTracks(text, i, word, s, View(text, 0, 0), ViewNests(text, 0));
        s := Visit(text, i, word, s);
      } else {
        PassOver(text, i, s.position, s.depth, s.skipUntil);
      }
    }
    if s.depth > 0 {
      CloseAtEnd(text, s.depth);
      CloseAtEnd(text, 1);
      ViewTail(text, |text| - 2, |text|);
    }
    shown := if s.depth == 0 then s.shown + text[s.position..] else s.shown;
    nested := s.nested;
  }

  // ----- What the stripper promises -----

  ghost predicate NoOpener(s: string) {
    forall k :: !OpensGm(s, k)
  }

  /** An opener cannot form across the seam between `a` and a text that is safe after a closing ":::". */
  lemma SeamIsSafe(a: string, b: string)
    requires NoOpener(a) && NoOpener(":::" + b)
    requires b != "" ==> !IsAlpha(b[0])
    ensures NoOpener(a + b)
  {
    forall k ensures !OpensGm(a + b, k) {
      if OpensGm(a + b, k) {
        assert OpensGm(if k + 5 <= |a| then a else ":::" + b, if k + 5 <= |a| then k else k - |a| + 3);
      }
    }
  }

  /** What precedes the text shown from `from` on: a closing ":::" unless the text starts there. */
  function Before(from: nat): (pre: string) {
    if from == 0 then "" else ":::"
  }

  ghost predicate AfterClose(t: string, i: nat, from: nat)
    requires i <= |t| && from <= |t|
  {
    && (from == 0 || from == |t| || Bare(t, from - 3))
    && from <= i + 2
    && forall k :: from - 2 <= k < i ==> !OpensGm(t, k)
  }

  lemma SegmentIsSafe(t: string, i: nat, from: nat)
    requires i <= |t| && from <= |t| && AfterClose(t, i, from)
    ensures NoOpener(Before(from) + Slice(t, from, i))
  {
    var s := Before(from) + Slice(t, from, i);
    forall k ensures !OpensGm(s, k) {
      if OpensGm(s, k) {
        assert OpensGm(t, from - |Before(from)| + k);
      }
    }
  }

  lemma {:induction false} BlockEndIsClose(t: string, i: nat)
    requires i <= |t|
    ensures BlockEnd(t, i) == |t| || (BlockEnd(t, i) >= i + 3 && Bare(t, BlockEnd(t, i) - 3))
    decreases |t| - i
  {
    if i == |t| {
    } else if Named(t, i) {
      BlockEndIsClose(t, BlockEnd(t, i + 4));
    } else if !Bare(t, i) {
      BlockEndIsClose(t, i + 1);
    }
  }

  lemma {:induction false} ViewIsSafe(t: string, i: nat, from: nat)
    requires i <= |t| && from <= |t| && AfterClose(t, i, from)
    ensures NoOpener(Before(from) + View(t, i, from))
    ensures 0 < from && View(t, i, from) != "" ==> !IsAlpha(View(t, i, from)[0])
    decreases |t| - i
  {
    if i == |t| {
      SegmentIsSafe(t, i, from);
      assert Slice(t, from, i) == View(t, i, from);
    } else if OpensGm(t, i) {
      var e := BlockEnd(t, i + 5);
      BlockEndIsClose(t, i + 5);
      ViewIsSafe(t, e - 2, e);
      SegmentIsSafe(t, i, from);
      SeamIsSafe(Before(from) + Slice(t, from, i), View(t, e - 2, e));
      ConcatAssoc(Before(from), Slice(t, from, i), View(t, e - 2, e));
    } else {
      ViewIsSafe(t, i + 1, from);
    }
  }

  lemma {:induction false} NothingToStrip(t: string, i: nat, from: nat)
    requires i <= |t| && from <= |t| && NoOpener(t)
    ensures View(t, i, from) == t[from..]
    decreases |t| - i
  {
    if i < |t| {
      NothingToStrip(t, i + 1, from);
    }
  }

  /** No ":::gm" in any letter case survives, not even across the seams where blocks were cut out;
      hence stripping twice is stripping once. */
  lemma StrippedIsSafe(t: string)
    ensures NoOpener(View(t, 0, 0))
    ensures View(View(t, 0, 0), 0, 0) == View(t, 0, 0)
  {
    ViewIsSafe(t, 0, 0);
    assert "" + View(t, 0, 0) == View(t, 0, 0);
    NothingToStrip(View(t, 0, 0), 0, 0);
  }

  ghost predicate Embeds(s: string, t: string, at: seq<nat>) {
    && |at| == |s|
    && (forall k :: 0 <= k < |at| ==> at[k] < |t| && s[k] == t[at[k]])
    && (forall j, k :: 0 <= j < k < |at| ==> at[j] < at[k])
  }

  lemma SliceEmbeds(t: string, from: nat, stop: nat) returns (at: seq<nat>)
    requires stop <= |t|
    ensures Embeds(Slice(t, from, stop), t, at)
    ensures forall k :: 0 <= k < |at| ==> from <= at[k] < stop
  {
    at := seq(|Slice(t, from, stop)|, k requires 0 <= k => from + k);
  }

  lemma EmbedsConcat(a: string, b: string, t: string, at: seq<nat>, bt: seq<nat>, m: nat)
    requires Embeds(a, t, at) && Embeds(b, t, bt)
    requires (forall k :: 0 <= k < |at| ==> at[k] < m) && (forall k :: 0 <= k < |bt| ==> m <= bt[k])
    ensures Embeds(a + b, t, at + bt)
  {
  }

  lemma {:induction false} ViewEmbeds(t: string, i: nat, from: nat) returns (at: seq<nat>)
    requires i <= |t| && from <= |t| && from <= i + 2
    ensures Embeds(View(t, i, from), t, at)
    ensures forall k :: 0 <= k < |at| ==> from <= at[k]
    decreases |t| - i
  {
    if i == |t| {
      at := SliceEmbeds(t, from, i);
      assert Slice(t, from, i) == t[from..];
    } else if OpensGm(t, i) {
      var e := BlockEnd(t, i + 5);
      var rest := ViewEmbeds(t, e - 2, e);
      at := SliceEmbeds(t, from, i);
      EmbedsConcat(Slice(t, from, i), View(t, e - 2, e), t, at, rest, e);
      at := at + rest;
    } else {
      at := ViewEmbeds(t, i + 1, from);
    }
  }

  /** Stripping only removes: the visible text is a subsequence of the input. */
  lemma StrippedIsSubsequence(t: string)
    ensures exists at :: Embeds(View(t, 0, 0), t, at)
  {
    var at := ViewEmbeds(t, 0, 0);
  }

  /** `strip_gm_blocks` and `has_nested_gm_container` on a nullable text. */
  method StripGmBlocks(text: Option<string>, word: char -> bool) returns (r: Option<string>)
    requires word('m') && word('M') && !word(':')
    ensures text.None? <==> r.None?
    ensures text.Some? ==> NoOpener(r.value) && r.value == View(text.value, 0, 0)
  {
    r := text;
    if text.Some? && text.value != "" {
      var shown, _ := Scan(text.value, word);
      r := Some(shown);
    }
    if text.Some? {
      StrippedIsSafe(text.value);
    }
  }

  method HasNestedGmContainer(text: Option<string>, word: char -> bool) returns (nested: bool)
    requires word('m') && word('M') && !word(':')
    ensures nested <==> text.Some? && ViewNests(text.value, 0)
  {
    nested := false;
    if text.Some? && text.value != "" {
      var _, n := Scan(text.value, word);
      nested := n;
    }
  }
}
