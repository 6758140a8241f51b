/** The merge of tags that differ only by case
    (migrations/versions/705548ecfb46_article_visibility_search_and_tag_uniqueness.py). Identifiers of tags and of
    tagged entities are numbers; `lower` is the database's lower(). A link table is the set of its rows, as its
    composite key makes it. */
module TagMerge {

  datatype Link = Link(entity: int, tag: int)

  datatype Table = RaceTags | SubraceTags | BackgroundTags | ArticleTags

  const TAG_LINK_TABLES := [RaceTags, SubraceTags, BackgroundTags, ArticleTags]

  type Tags = map<int, string>

  // ----- Groups of tags -----

  ghost predicate SameName(tags: Tags, lower: string -> string, a: int, b: int) {
    a in tags && b in tags && lower(tags[a]) == lower(tags[b])
  }

  /** `k` has the lowest id among the tags named like `t`, up to case. */
  ghost predicate IsKeeper(tags: Tags, lower: string -> string, k: int, t: int) {
    SameName(tags, lower, k, t) && forall x :: SameName(tags, lower, x, t) ==> k <= x
  }

  /** The temporary table: every tag that is not its group's keeper, with that keeper. */
  ghost predicate IsMergeTable(tags: Tags, lower: string -> string, merge: map<int, int>) {
    && (forall t :: t in merge <==> t in tags && !IsKeeper(tags, lower, t, t))
    && (forall t :: t in merge ==> IsKeeper(tags, lower, merge[t], t))
  }

  method MergeTable(tags: Tags, lower: string -> string) returns (merge: map<int, int>)
    ensures IsMergeTable(tags, lower, merge)
  {
    var lowest: map<string, int> := map[];
    var pending: set<int> := tags.Keys;
    while pending != {}
      invariant pending <= tags.Keys
      invariant Lowest(tags, lower, tags.Keys - pending, lowest)
      decreases |pending|
    {
      HasElement(pending);
      var t: int :| t in pending;
      var name := lower(tags[t]);
      if name !in lowest || t < lowest[name] {
        lowest := lowest[name := t];
      }
      pending := pending - {t};
    }
    merge := map t | t in tags && t != lowest[lower(tags[t])] :: lowest[lower(tags[t])];
    LowestIsKeeper(tags, lower, lowest);
  }

  lemma HasElement(s: set<int>)
    ensures s == {} || exists t: int :: t in s
  {
    assert (forall t: int :: t !in s) ==> s == {};
  }

  /** The lowest id of each name among the tags `seen`. */
  ghost predicate Lowest(tags: Tags, lower: string -> string, seen: set<int>, lowest: map<string, int>) {
    && seen <= tags.Keys
    && (forall t :: t in seen ==> lower(tags[t]) in lowest && lowest[lower(tags[t])] <= t)
    && (forall name :: name in lowest ==> lowest[name] in seen && lower(tags[lowest[name]]) == name)
  }

  lemma LowestIsKeeper(tags: Tags, lower: string -> string, lowest: map<string, int>)
    requires Lowest(tags, lower, tags.Keys, lowest)
    ensures forall t :: t in tags ==> IsKeeper(tags, lower, lowest[lower(tags[t])], t)
    ensures forall t, k :: IsKeeper(tags, lower, k, t) ==> k == lowest[lower(tags[t])]
  {
  }

  // ----- One link table -----

  predicate Moves(table: set<Link>, merge: map<int, int>, link: Link) {
    link.tag in merge && Link(link.entity, merge[link.tag]) !in table
  }

  function Moved(table: set<Link>, merge: map<int, int>, link: Link): Link {
    if Moves(table, merge, link) then Link(link.entity, merge[link.tag]) else link
  }

  /** Two rows would become one. */
  ghost predicate Collide(table: set<Link>, merge: map<int, int>) {
    exists a, b :: a in table && b in table && a != b && Moved(table, merge, a) == Moved(table, merge, b)
  }

  /** The rows `done`, repointed. */
  ghost function Repointed(table: set<Link>, merge: map<int, int>, done: set<Link>): set<Link> {
    set l | l in done :: Moved(table, merge, l)
  }

  lemma RepointOne(table: set<Link>, merge: map<int, int>, done: set<Link>, link: Link)
    requires done <= table && link in table && link !in done
    ensures link !in Repointed(table, merge, done)
    ensures Repointed(table, merge, done + {link}) == Repointed(table, merge, done) + {Moved(table, merge, link)}
    ensures Moved(table, merge, link) in table ==> Moved(table, merge, link) == link
  {
    var after := Repointed(table, merge, done + {link});
    forall r ensures r in after <==> r in Repointed(table, merge, done) + {Moved(table, merge, link)} {
      if r in after {
        var l :| l in done + {link} && r == Moved(table, merge, l);
      }
      if r in Repointed(table, merge, done) {
        var l :| l in done && r == Moved(table, merge, l);
        assert l in done + {link};
      }
      assert link in done + {link};
    }
  }

  /** No two of the rows `done` become one. */
  ghost predicate Apart(table: set<Link>, merge: map<int, int>, done: set<Link>) {
    forall a, b :: a in done && b in done && Moved(table, merge, a) == Moved(table, merge, b) ==> a == b
  }

  /** The rows `done` have been rewritten, no two of them alike. */
  ghost predicate Rewritten(table: set<Link>, merge: map<int, int>, done: set<Link>, result: set<Link>) {
    && done <= table
    && result == (table - done) + Repointed(table, merge, done)
    && Apart(table, merge, done)
  }

  lemma RewriteOne(table: set<Link>, merge: map<int, int>, pending: set<Link>, result: set<Link>, link: Link)
    requires pending <= table && Rewritten(table, merge, table - pending, result) && link in pending
    ensures Moved(table, merge, link) !in result - {link} ==>
      Rewritten(table, merge, table - (pending - {link}), result - {link} + {Moved(table, merge, link)})
    ensures Moved(table, merge, link) in result - {link} ==> Collide(table, merge)
  {
    var done := table - pending;
    assert table - (pending - {link}) == done + {link};
    RepointOne(table, merge, done, link);
    if Moved(table, merge, link) in result - {link} {
      ClashIsCollision(table, merge, done, result, link);
    } else {
      RewriteFresh(table, merge, done, result, link);
    }
  }

  lemma ClashIsCollision(table: set<Link>, merge: map<int, int>, done: set<Link>, result: set<Link>, link: Link)
    requires Rewritten(table, merge, done, result) && link in table && link !in done
    requires Moved(table, merge, link) in result - {link}
    ensures Collide(table, merge)
  {
    RepointOne(table, merge, done, link);
    var other :| other in done && Moved(table, merge, link) == Moved(table, merge, other);
  }

  lemma FreshStaysApart(table: set<Link>, merge: map<int, int>, done: set<Link>, link: Link)
    requires Apart(table, merge, done) && Moved(table, merge, link) !in Repointed(table, merge, done)
    ensures Apart(table, merge, done + {link})
  {
    forall a | a in done ensures Moved(table, merge, a) != Moved(table, merge, link) {
      assert Moved(table, merge, a) in Repointed(table, merge, done);
    }
  }

  lemma RewriteFresh(table: set<Link>, merge: map<int, int>, done: set<Link>, result: set<Link>, link: Link)
    requires Rewritten(table, merge, done, result) && link in table && link !in done
    requires Moved(table, merge, link) !in result - {link}
    ensures Rewritten(table, merge, done + {link}, result - {link} + {Moved(table, merge, link)})
  {
    RepointOne(table, merge, done, link);
    assert result - {link} == (table - (done + {link})) + Repointed(table, merge, done);
    FreshStaysApart(table, merge, done, link);
  }

  lemma NoneRewritten(table: set<Link>, merge: map<int, int>)
    ensures Rewritten(table, merge, table - table, table)
  {
  }

  lemma AllRewritten(table: set<Link>, merge: map<int, int>, result: set<Link>)
    requires Rewritten(table, merge, table - {}, result)
    ensures !Collide(table, merge) && result == Repointed(table, merge, table)
  {
    assert table - {} == table;
  }

  /** The UPDATE: rows are visited in any order; what moves is decided on the table as it was, and a row that would
      equal another one aborts the statement. */
  method Update(table: set<Link>, merge: map<int, int>) returns (ok: bool, result: set<Link>)
    ensures ok <==> !Collide(table, merge)
    ensures ok ==> result == Repointed(table, merge, table)
  {
    result := table;
    var pending := table;
    NoneRewritten(table, merge);
    while pending != {}
      invariant pending <= table && Rewritten(table, merge, table - pending, result)
      decreases |pending|
    {
      var link :| link in pending;
      var row := Moved(table, merge, link);
      RewriteOne(table, merge, pending, result, link);
      if row in result - {link} {
        return false, table;
      }
      result := result - {link} + {row};
      pending := pending - {link};
    }
    AllRewritten(table, merge, result);
    ok := true;
  }

  /** The DELETE that follows: links to a losing tag whose keeper was linked already. */
  function Merged(rows: set<Link>, merge: map<int, int>): set<Link> {
    set l | l in rows && l.tag !in merge
  }

  /** A table after UPDATE and DELETE. */
  ghost function AfterMerge(table: set<Link>, merge: map<int, int>): set<Link> {
    Merged(Repointed(table, merge, table), merge)
  }

  // ----- What a merge keeps -----

  /** The names, up to case, that an entity is tagged with. */
  ghost function Names(table: set<Link>, tags: Tags, lower: string -> string, entity: int): set<string> {
    set l | l in table && l.entity == entity && l.tag in tags :: lower(tags[l.tag])
  }

  ghost predicate NoneDangling(table: set<Link>, tags: Tags) {
    forall l :: l in table ==> l.tag in tags
  }

  /** What the unique index on lower(name) demands. */
  ghost predicate UniqueNames(tags: Tags, lower: string -> string) {
    forall a, b :: SameName(tags, lower, a, b) ==> a == b
  }

  /** Some entity is linked to two tags of a group but not to its keeper. */
  ghost predicate Blocked(table: set<Link>, tags: Tags, lower: string -> string) {
    exists e, a, b, k :: Link(e, a) in table && Link(e, b) in table && a != b
      && IsKeeper(tags, lower, k, a) && IsKeeper(tags, lower, k, b) && Link(e, k) !in table
  }

  lemma KeeperStays(tags: Tags, lower: string -> string, merge: map<int, int>, k: int, t: int)
    requires IsMergeTable(tags, lower, merge) && IsKeeper(tags, lower, k, t)
    ensures k !in merge && (t == k || (t in merge && merge[t] == k))
  {
    forall x | SameName(tags, lower, x, k) ensures k <= x {
      assert SameName(tags, lower, x, t);
    }
    assert IsKeeper(tags, lower, k, k);
    if t !in merge {
      assert IsKeeper(tags, lower, t, t) && SameName(tags, lower, k, t);
      assert SameName(tags, lower, t, t);
    }
  }

  /** The UPDATE breaks the composite key exactly if some entity is blocked in this sense. */
  lemma CollideIffBlocked(table: set<Link>, tags: Tags, lower: string -> string, merge: map<int, int>)
    requires IsMergeTable(tags, lower, merge)
    ensures Collide(table, merge) <==> Blocked(table, tags, lower)
  {
    if Collide(table, merge) {
      var a, b :| a in table && b in table && a != b && Moved(table, merge, a) == Moved(table, merge, b);
      assert Moves(table, merge, a) && Moves(table, merge, b);
      var k := merge[a.tag];
      assert a == Link(a.entity, a.tag) && b == Link(a.entity, b.tag) && Link(a.entity, k) !in table;
      assert IsKeeper(tags, lower, k, a.tag) && IsKeeper(tags, lower, k, b.tag);
    }
    if Blocked(table, tags, lower) {
      var e, a, b, k :| Link(e, a) in table && Link(e, b) in table && a != b
        && IsKeeper(tags, lower, k, a) && IsKeeper(tags, lower, k, b) && Link(e, k) !in table;
      KeeperStays(tags, lower, merge, k, a);
      KeeperStays(tags, lower, merge, k, b);
      assert Moved(table, merge, Link(e, a)) == Link(e, k) == Moved(table, merge, Link(e, b));
    }
  }

  lemma KeptNamesAreUnique(tags: Tags, lower: string -> string, merge: map<int, int>)
    requires IsMergeTable(tags, lower, merge)
    ensures UniqueNames(tags - merge.Keys, lower)
  {
    var kept := tags - merge.Keys;
    forall a, b | SameName(kept, lower, a, b) ensures a == b {
      assert IsKeeper(tags, lower, a, a) && IsKeeper(tags, lower, b, b);
      assert SameName(tags, lower, a, b) && SameName(tags, lower, b, a);
    }
  }

  lemma MovedKeepsName(table: set<Link>, tags: Tags, lower: string -> string, merge: map<int, int>, l: Link)
    requires IsMergeTable(tags, lower, merge) && l.tag in tags
    ensures var m := Moved(table, merge, l);
      m.entity == l.entity && SameName(tags, lower, m.tag, l.tag) && (m.tag in merge ==>
        Link(l.entity, merge[l.tag]) in table && merge[l.tag] !in merge
        && SameName(tags, lower, merge[l.tag], l.tag))
  {
    if l.tag in merge {
      KeeperStays(tags, lower, merge, merge[l.tag], l.tag);
    }
  }

  /** Every entity keeps its set of names, and every link that is left leads to a tag that is left. */
  lemma MergeKeepsNames(table: set<Link>, tags: Tags, lower: string -> string, merge: map<int, int>, entity: int)
    requires IsMergeTable(tags, lower, merge) && NoneDangling(table, tags)
    ensures var after := AfterMerge(table, merge);
      NoneDangling(after, tags - merge.Keys)
      && Names(after, tags - merge.Keys, lower, entity) == Names(table, tags, lower, entity)
  {
    var kept, after := tags - merge.Keys, AfterMerge(table, merge);
    forall l | l in after ensures l.tag in kept && lower(kept[l.tag]) in Names(table, tags, lower, l.entity) {
      var was :| was in table && l == Moved(table, merge, was);
      MovedKeepsName(table, tags, lower, merge, was);
    }
    forall l | l in table ensures lower(tags[l.tag]) in Names(after, kept, lower, l.entity) {
      MovedKeepsName(table, tags, lower, merge, l);
      var m := Moved(table, merge, l);
      if m.tag !in merge {
        assert m in after;
      } else {
        var held := Link(l.entity, merge[l.tag]);
        assert Moved(table, merge, held) == held && held in after;
      }
    }
  }

  // ----- The migration -----

  class TagDatabase {
    var tags: Tags
    var links: map<Table, set<Link>>

    ghost predicate Valid()
      reads this
    {
      forall t: Table :: t in links && NoneDangling(links[t], tags)
    }

    /** `_merge_case_only_duplicate_tags`, inside the migration's transaction: a statement that fails undoes it all. */
    method MergeCaseOnlyDuplicates(lower: string -> string) returns (ok: bool)
      requires Valid()
      modifies this
      ensures Valid()
      ensures ok <==> forall t: Table :: t in old(links) && !Blocked(old(links)[t], old(tags), lower)
      ensures !ok ==> tags == old(tags) && links == old(links)
      ensures ok ==> UniqueNames(tags, lower)
      ensures ok ==> forall t :: t in tags <==> IsKeeper(old(tags), lower, t, t)
      ensures ok ==> forall t :: t in tags ==> t in old(tags) && tags[t] == old(tags)[t]
      ensures ok ==> forall t: Table :: t in links && t in old(links)
      ensures ok ==> forall t: Table, e :: Names(links[t], tags, lower, e) == Names(old(links)[t], old(tags), lower, e)
    {
      var merge := MergeTable(tags, lower);
      var before, rewritten := links, links;
      for i := 0 to |TAG_LINK_TABLES|
        invariant links == before == old(links) && tags == old(tags)
        invariant forall t: Table :: t in rewritten
        invariant forall j :: 0 <= j < i ==> !Collide(before[TAG_LINK_TABLES[j]], merge)
        invariant forall j :: 0 <= j < i ==>
          rewritten[TAG_LINK_TABLES[j]] == AfterMerge(before[TAG_LINK_TABLES[j]], merge)
      {
        var table := TAG_LINK_TABLES[i];
        CollideIffBlocked(before[table], tags, lower, merge);
        var updated, rows := Update(before[table], merge);
        if !updated {
          return false;
        }
        rewritten := rewritten[table := Merged(rows, merge)];
      }
      forall t: Table
        ensures !Blocked(before[t], tags, lower) && rewritten[t] == AfterMerge(before[t], merge)
      {
        EveryTableIsListed(t);
        CollideIffBlocked(before[t], tags, lower, merge);
      }
      MergePreserves(before, rewritten, tags, lower, merge);
      links := rewritten;
      tags := tags - merge.Keys;
      ok := true;
    }
  }

  /** Three spellings of one name, and an entity linked to the two that lose. */
  lemma LosersBlock(tags: Tags, table: set<Link>, lower: string -> string)
    requires tags == map[1 := "Elf", 2 := "elf", 3 := "ELF"] && table == {Link(7, 2), Link(7, 3)}
    requires lower("Elf") == lower("elf") == lower("ELF")
    ensures Blocked(table, tags, lower)
  {
    assert SameName(tags, lower, 1, 2) && SameName(tags, lower, 1, 3);
    assert IsKeeper(tags, lower, 1, 2) && IsKeeper(tags, lower, 1, 3);
    assert Link(7, 2) in table && Link(7, 3) in table && Link(7, 1) !in table;
  }

  /** The merge of these aborts. (The four tables hold the same rows.) */
  method LosersAbort(lower: string -> string) returns (ok: bool)
    requires lower("Elf") == lower("elf") == lower("ELF")
    ensures !ok
  {
    var db := new TagDatabase;
    var tags := map[1 := "Elf", 2 := "elf", 3 := "ELF"];
    var table := {Link(7, 2), Link(7, 3)};
    db.tags, db.links := tags, map t: Table | t in TAG_LINK_TABLES :: table;
    assert NoneDangling(table, tags);
    forall t: Table ensures t in TAG_LINK_TABLES {
      EveryTableIsListed(t);
    }
    LosersBlock(tags, table, lower);
    assert db.links[RaceTags] == table;
    ok := db.MergeCaseOnlyDuplicates(lower);
  }

  lemma EveryTableIsListed(t: Table)
    ensures exists j :: 0 <= j < |TAG_LINK_TABLES| && TAG_LINK_TABLES[j] == t
  {
    match t
    case RaceTags => assert TAG_LINK_TABLES[0] == t;
    case SubraceTags => assert TAG_LINK_TABLES[1] == t;
    case BackgroundTags => assert TAG_LINK_TABLES[2] == t;
    case ArticleTags => assert TAG_LINK_TABLES[3] == t;
  }

  lemma MergePreserves(before: map<Table, set<Link>>, after: map<Table, set<Link>>, tags: Tags, lower: string -> string,
                       merge: map<int, int>)
    requires IsMergeTable(tags, lower, merge)
    requires forall t: Table :: t in before && NoneDangling(before[t], tags)
    requires forall t: Table :: t in after && after[t] == AfterMerge(before[t], merge)
    ensures UniqueNames(tags - merge.Keys, lower)
    ensures forall t: Table :: NoneDangling(after[t], tags - merge.Keys)
    ensures forall t: Table, e :: Names(after[t], tags - merge.Keys, lower, e) == Names(before[t], tags, lower, e)
    ensures forall t :: t in tags - merge.Keys <==> IsKeeper(tags, lower, t, t)
  {
    KeptNamesAreUnique(tags, lower, merge);
    forall t: Table, e
      ensures NoneDangling(after[t], tags - merge.Keys)
      ensures Names(after[t], tags - merge.Keys, lower, e) == Names(before[t], tags, lower, e)
    {
      MergeKeepsNames(before[t], tags, lower, merge, e);
    }
    forall t ensures t in tags - merge.Keys <==> IsKeeper(tags, lower, t, t) {
      assert IsKeeper(tags, lower, t, t) ==> SameName(tags, lower, t, t);
    }
  }
}
