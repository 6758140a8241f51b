/** The migration that turns untyped ability score increases into typed rows, and back
    (migrations/versions/b8e2f4a6c9d1_normalize_asi_choices_child_increases.py). A statement that fails undoes the whole
    migration. */
module AsiMigration {
  import opened Common
  import opened Numerals

  // ----- Ability scores -----

  datatype Ability = STR | DEX | CON | INT | WIS | CHA

  const ABILITIES := [STR, DEX, CON, INT, WIS, CHA]

  function Label(a: Ability): string {
    match a
    case STR => "STR"
    case DEX => "DEX"
    case CON => "CON"
    case INT => "INT"
    case WIS => "WIS"
    case CHA => "CHA"
  }

  /** The base column of an ability. */
  function Column(a: Ability): string {
    match a
    case STR => "strength"
    case DEX => "dexterity"
    case CON => "constitution"
    case INT => "intelligence"
    case WIS => "wisdom"
    case CHA => "charisma"
  }

  /** A label is the first three letters of its column, in upper case. */
  lemma LabelOfColumn(a: Ability)
    ensures |Label(a)| == 3 && |Column(a)| >= 3
    ensures forall i :: 0 <= i < 3 ==> Label(a)[i] as int == Column(a)[i] as int - 'a' as int + 'A' as int
  {
    match a
    case STR =>
    case DEX =>
    case CON =>
    case INT =>
    case WIS =>
    case CHA =>
  }

  /** The base columns of a character; also the six sums of the grouped subquery. */
  datatype Scores =
    Scores(strength: int, dexterity: int, constitution: int, intelligence: int, wisdom: int, charisma: int)
  {
    function Get(a: Ability): int {
      match a
      case STR => strength
      case DEX => dexterity
      case CON => constitution
      case INT => intelligence
      case WIS => wisdom
      case CHA => charisma
    }

    function Plus(a: Ability, amount: int): (r: Scores)
      ensures forall b :: r.Get(b) == Get(b) + if a == b then amount else 0
    {
      match a
      case STR => this.(strength := strength + amount)
      case DEX => this.(dexterity := dexterity + amount)
      case CON => this.(constitution := constitution + amount)
      case INT => this.(intelligence := intelligence + amount)
      case WIS => this.(wisdom := wisdom + amount)
      case CHA => this.(charisma := charisma + amount)
    }

    predicate Fits() {
      Int32(strength) && Int32(dexterity) && Int32(constitution) && Int32(intelligence) && Int32(wisdom)
      && Int32(charisma)
    }
  }

  /** What an integer column can hold. */
  predicate Int32(n: int) {
    -0x8000_0000 <= n < 0x8000_0000
  }

  /** Two's complement of 32 bits. */
  lemma Int32Wraps(n: int)
    ensures Int32(n) <==> (n + 0x8000_0000) % 0x1_0000_0000 - 0x8000_0000 == n
  {
  }

  // ----- Amounts as text -----

  /** An optional minus sign and one to nine digits. */
  predicate IsAmount(s: string) {
    1 <= |Unsigned(s)| <= 9 && AllDigits(Unsigned(s))
  }

  function IntValue(s: string): int
    requires IsAmount(s)
  {
    var n: int := Value(Unsigned(s));
    if s[0] == '-' then -n else n
  }

  lemma Pow10Nine()
    ensures Pow10(9) == 1_000_000_000
  {
    assert Pow10(3) == 1_000;
    assert Pow10(6) == 1_000_000;
  }

  /** An integer read back as the migration wrote it is accepted, with its value, exactly if it has at most nine
      digits: fewer than an integer column can hold. */
  lemma AmountRoundTrip(n: int)
    ensures IsAmount(IntText(n)) <==> -1_000_000_000 < n < 1_000_000_000
    ensures IsAmount(IntText(n)) ==> IntValue(IntText(n)) == n
  {
    var m: nat := if n < 0 then -n else n;
    DecimalLength(m, 9);
    DecimalValue(m);
    Pow10Nine();
    UnsignedText(n);
  }

  // ----- Rows -----

  /** One element of a payload: an object's `ability` and `amount` as text (None if absent or null), or no object. */
  datatype Entry = Entry(ability: Option<string>, amount: Option<string>) | NotAnObject

  /** The JSONB column; SQL NULL, JSON null and whatever is no array mean the same. */
  datatype Payload = Other | Array(entries: seq<Entry>)

  datatype Choice = Legacy(character: int, payload: Payload) | Typed(character: int, applied: bool)

  datatype Increase = Increase(choice: int, ability: Ability, amount: int)

  function Entries(c: Choice): seq<Entry>
    requires c.Legacy?
  {
    match c.payload
    case Other => []
    case Array(entries) => entries
  }

  predicate Names(e: Entry, a: Ability, upper: string -> string) {
    e.Entry? && e.ability.Some? && upper(e.ability.value) == Label(a)
  }

  predicate WellFormed(e: Entry, upper: string -> string) {
    (exists a :: Names(e, a, upper)) && e.amount.Some? && IsAmount(e.amount.value)
  }

  /** What a choice adds to an ability. */
  function Sum(entries: seq<Entry>, a: Ability, upper: string -> string): int
    requires forall e :: e in entries ==> WellFormed(e, upper)
  {
    if entries == [] then 0
    else
      Sum(entries[..|entries| - 1], a, upper) + Amount(entries[|entries| - 1], a, upper)
  }

  function Amount(e: Entry, a: Ability, upper: string -> string): int
    requires WellFormed(e, upper)
  {
    if Names(e, a, upper) then IntValue(e.amount.value) else 0
  }

  /** The same, read from the typed rows. */
  function Total(rows: seq<Increase>, choice: int, a: Ability): int {
    if rows == [] then 0
    else
      Total(rows[..|rows| - 1], choice, a)
      + var r := rows[|rows| - 1]; if r.choice == choice && r.ability == a then r.amount else 0
  }

  // ----- Effective scores -----

  predicate Counts(choices: map<int, Choice>, r: Increase, character: int) {
    r.choice in choices && choices[r.choice].Typed? && !choices[r.choice].applied
    && choices[r.choice].character == character
  }

  /** What the calculator adds to the base column: rows of choices not yet applied to it. */
  function Points(rows: seq<Increase>, choices: map<int, Choice>, character: int, a: Ability): int {
    if rows == [] then 0
    else
      Points(rows[..|rows| - 1], choices, character, a)
      + var r := rows[|rows| - 1]; if Counts(choices, r, character) && r.ability == a then r.amount else 0
  }

  predicate Occurs(entries: seq<Entry>, a: Ability, upper: string -> string) {
    exists e :: e in entries && Names(e, a, upper)
  }

  predicate HasRow(rows: seq<Increase>, choice: int, a: Ability) {
    exists r :: r in rows && r.choice == choice && r.ability == a
  }

  /** UNIQUE (choice, ability) */
  predicate UniqueRows(rows: seq<Increase>) {
    forall i, j :: 0 <= i < j < |rows| ==> rows[i].choice != rows[j].choice || rows[i].ability != rows[j].ability
  }

  lemma TotalSnoc(rows: seq<Increase>, r: Increase, choice: int, a: Ability)
    ensures Total(rows + [r], choice, a)
      == Total(rows, choice, a) + if r.choice == choice && r.ability == a then r.amount else 0
  {
    assert (rows + [r])[..|rows|] == rows;
  }

  lemma HasRowSnoc(rows: seq<Increase>, r: Increase, choice: int, a: Ability)
    ensures HasRow(rows + [r], choice, a) <==> HasRow(rows, choice, a) || (r.choice == choice && r.ability == a)
  {
    assert (rows + [r])[|rows|] == r;
    if HasRow(rows, choice, a) {
      var x :| x in rows && x.choice == choice && x.ability == a;
      assert x in rows + [r];
    }
  }

  // ----- Upgrade -----

  predicate AllLegacy(choices: map<int, Choice>) {
    forall c :: c in choices ==> choices[c].Legacy?
  }

  /** `_reject_malformed_payloads` finds nothing. */
  predicate PayloadsWellFormed(choices: map<int, Choice>, upper: string -> string)
    requires AllLegacy(choices)
  {
    forall c :: c in choices ==> forall e :: e in Entries(choices[c]) ==> WellFormed(e, upper)
  }

  type Group = (int, Ability)

  /** The INSERT has dealt with the groups `done`. */
  ghost predicate Inserted(rows: seq<Increase>, choices: map<int, Choice>, upper: string -> string, done: set<Group>)
    requires AllLegacy(choices) && PayloadsWellFormed(choices, upper)
  {
    && UniqueRows(rows)
    && (forall g :: g in done ==> g.0 in choices)
    && (forall c, a :: HasRow(rows, c, a) <==> (c, a) in done && Occurs(Entries(choices[c]), a, upper))
    && (forall c, a :: Total(rows, c, a) == if (c, a) in done then Sum(Entries(choices[c]), a, upper) else 0)
  }

  lemma {:induction false} SumOfNone(entries: seq<Entry>, a: Ability, upper: string -> string)
    requires forall e :: e in entries ==> WellFormed(e, upper)
    requires !Occurs(entries, a, upper)
    ensures Sum(entries, a, upper) == 0
  {
    if entries != [] {
      var e := entries[|entries| - 1];
      assert e in entries;
      assert !Names(e, a, upper);
      SumOfNone(entries[..|entries| - 1], a, upper);
    }
  }

  lemma InsertOne(rows: seq<Increase>, choices: map<int, Choice>, upper: string -> string, done: set<Group>, c: int,
                  a: Ability)
    requires AllLegacy(choices) && PayloadsWellFormed(choices, upper) && Inserted(rows, choices, upper, done)
    requires c in choices && (c, a) !in done
    ensures Occurs(Entries(choices[c]), a, upper) ==>
      Inserted(rows + [Increase(c, a, Sum(Entries(choices[c]), a, upper))], choices, upper, done + {(c, a)})
    ensures !Occurs(Entries(choices[c]), a, upper) ==> Inserted(rows, choices, upper, done + {(c, a)})
  {
    var entries := Entries(choices[c]);
    if Occurs(entries, a, upper) {
      var r := Increase(c, a, Sum(entries, a, upper));
      forall i | 0 <= i < |rows| ensures rows[i].choice != c || rows[i].ability != a {
        assert rows[i] in rows && !HasRow(rows, c, a);
      }
      forall x, b
        ensures HasRow(rows + [r], x, b) <==> (x, b) in done + {(c, a)} && Occurs(Entries(choices[x]), b, upper)
        ensures Total(rows + [r], x, b)
             == if (x, b) in done + {(c, a)} then Sum(Entries(choices[x]), b, upper) else 0
      {
        HasRowSnoc(rows, r, x, b);
        TotalSnoc(rows, r, x, b);
      }
    } else {
      SumOfNone(entries, a, upper);
    }
  }

  /** What the upgrade demands of its input: well-formed payloads, and sums an integer column can hold. */
  ghost predicate Upgradable(choices: map<int, Choice>, upper: string -> string)
    requires AllLegacy(choices)
  {
    && PayloadsWellFormed(choices, upper)
    && forall c, a :: c in choices ==> Int32(Sum(Entries(choices[c]), a, upper))
  }

  function Groups(choices: map<int, Choice>): set<Group> {
    set c, a | c in choices && a in ABILITIES :: (c, a)
  }

  /** The INSERT has dealt with the groups `done`, all of whose sums fit. */
  ghost predicate InsertedSoFar(rows: seq<Increase>, choices: map<int, Choice>, upper: string -> string,
                                done: set<Group>)
    requires AllLegacy(choices) && PayloadsWellFormed(choices, upper)
  {
    && Inserted(rows, choices, upper, done)
    && (forall c, a :: (c, a) in done ==> c in choices && Int32(Sum(Entries(choices[c]), a, upper)))
    && (forall r :: r in rows ==> r.choice in choices && Int32(r.amount))
  }

  lemma InsertNext(rows: seq<Increase>, choices: map<int, Choice>, upper: string -> string, done: set<Group>, c: int,
                   a: Ability)
    requires AllLegacy(choices) && PayloadsWellFormed(choices, upper)
    requires InsertedSoFar(rows, choices, upper, done) && c in choices && (c, a) !in done
    ensures var sum := Sum(Entries(choices[c]), a, upper);
      if !Occurs(Entries(choices[c]), a, upper) then InsertedSoFar(rows, choices, upper, done + {(c, a)})
      else Int32(sum) ==> InsertedSoFar(rows + [Increase(c, a, sum)], choices, upper, done + {(c, a)})
  {
    InsertOne(rows, choices, upper, done, c, a);
    if !Occurs(Entries(choices[c]), a, upper) {
      SumOfNone(Entries(choices[c]), a, upper);
    }
  }

  lemma AllInserted(rows: seq<Increase>, choices: map<int, Choice>, upper: string -> string)
    requires AllLegacy(choices) && PayloadsWellFormed(choices, upper)
    requires InsertedSoFar(rows, choices, upper, Groups(choices))
    ensures Upgradable(choices, upper)
  {
    forall c, a | c in choices ensures Int32(Sum(Entries(choices[c]), a, upper)) {
      EveryAbilityIsListed(a);
      assert (c, a) in Groups(choices);
    }
  }

  method InsertGroups(choices: map<int, Choice>, upper: string -> string, groups: set<Group>)
    returns (ok: bool, rows: seq<Increase>)
    requires AllLegacy(choices) && PayloadsWellFormed(choices, upper)
    requires forall c, a :: (c, a) in groups ==> c in choices
    ensures ok ==> InsertedSoFar(rows, choices, upper, groups)
    ensures !ok ==> !Upgradable(choices, upper)
  {
    var pending := groups;
    rows := [];
    assert groups - pending == {};
    while pending != {}
      invariant pending <= groups
      invariant InsertedSoFar(rows, choices, upper, groups - pending)
      decreases |pending|
    {
      var g: Group :| g in pending;
      var (c, a) := g;
      InsertNext(rows, choices, upper, groups - pending, c, a);
      assert groups - (pending - {g}) == groups - pending + {(c, a)};
      if Occurs(Entries(choices[c]), a, upper) {
        var sum := Sum(Entries(choices[c]), a, upper);
        if !Int32(sum) {
          return false, [];
        }
        rows := rows + [Increase(c, a, sum)];
      }
      pending := pending - {g};
    }
    assert groups - pending == groups;
    ok := true;
  }

  /** The INSERT: one row for every ability that a payload names, unless a sum overflows. */
  method Insert(choices: map<int, Choice>, upper: string -> string) returns (ok: bool, rows: seq<Increase>)
    requires AllLegacy(choices) && PayloadsWellFormed(choices, upper)
    ensures ok <==> Upgradable(choices, upper)
    ensures ok ==> Inserted(rows, choices, upper, Groups(choices))
    ensures ok ==> forall r :: r in rows ==> r.choice in choices && Int32(r.amount)
  {
    ok, rows := InsertGroups(choices, upper, Groups(choices));
    if ok {
      AllInserted(rows, choices, upper);
    }
  }

  lemma EveryAbilityIsListed(a: Ability)
    ensures a in ABILITIES
  {
    match a
    case STR => assert ABILITIES[0] == a;
    case DEX => assert ABILITIES[1] == a;
    case CON => assert ABILITIES[2] == a;
    case INT => assert ABILITIES[3] == a;
    case WIS => assert ABILITIES[4] == a;
    case CHA => assert ABILITIES[5] == a;
  }

  // ----- Downgrade -----

  predicate AllTyped(choices: map<int, Choice>) {
    forall c :: c in choices ==> choices[c].Typed?
  }

  /** The object that a row is written as. */
  function EntryOf(r: Increase): Entry {
    Entry(Some(Label(r.ability)), Some(IntText(r.amount)))
  }

  /** The rebuilt payload of a choice: one object per row. */
  function Rebuilt(rows: seq<Increase>, choice: int): seq<Entry> {
    if rows == [] then []
    else
      var r := rows[|rows| - 1];
      Rebuilt(rows[..|rows| - 1], choice)
      + if r.choice == choice then [EntryOf(r)] else []
  }

  function Reverted(rows: seq<Increase>, choices: map<int, Choice>): map<int, Choice>
    requires AllTyped(choices)
  {
    map c | c in choices ::
      Legacy(choices[c].character, if Rebuilt(rows, c) == [] then Other else Array(Rebuilt(rows, c)))
  }

  /** The subquery of the UPDATE: the sums of the uncounted rows by character; a character without any has none. */
  ghost predicate Grouped(totals: map<int, Scores>, rows: seq<Increase>, choices: map<int, Choice>) {
    forall ch, a :: (if ch in totals then totals[ch].Get(a) else 0) == Points(rows, choices, ch, a)
  }

  lemma GroupOne(totals: map<int, Scores>, rows: seq<Increase>, choices: map<int, Choice>, r: Increase)
    requires Grouped(totals, rows, choices) && AllTyped(choices)
    ensures r.choice in choices && !choices[r.choice].applied ==>
      var ch := choices[r.choice].character;
      var sums := if ch in totals then totals[ch] else Scores(0, 0, 0, 0, 0, 0);
      Grouped(totals[ch := sums.Plus(r.ability, r.amount)], rows + [r], choices)
    ensures r.choice !in choices || choices[r.choice].applied ==> Grouped(totals, rows + [r], choices)
  {
    assert (rows + [r])[..|rows|] == rows;
    forall ch, a
      ensures Points(rows + [r], choices, ch, a)
        == Points(rows, choices, ch, a) + if Counts(choices, r, ch) && r.ability == a then r.amount else 0
    {
    }
    forall ch, a ensures (if ch in totals then totals[ch].Get(a) else 0) == Points(rows, choices, ch, a) {
    }
  }

  // ----- The two directions undo each other -----

  ghost predicate Uppers(upper: string -> string) {
    forall a :: upper(Label(a)) == Label(a)
  }

  predicate Small(amount: int) {
    -1_000_000_000 < amount < 1_000_000_000
  }

  lemma RowEntry(r: Increase, a: Ability, upper: string -> string)
    requires Uppers(upper)
    ensures var e := EntryOf(r);
      (Names(e, a, upper) <==> r.ability == a) && (WellFormed(e, upper) <==> Small(r.amount))
      && (Small(r.amount) ==> Amount(e, a, upper) == if r.ability == a then r.amount else 0)
  {
    AmountRoundTrip(r.amount);
    LabelsDiffer(r.ability, a);
    assert Names(EntryOf(r), r.ability, upper);
  }

  lemma LabelsDiffer(a: Ability, b: Ability)
    ensures Label(a) == Label(b) <==> a == b
  {
    assert Label(a)[0] == Label(b)[0] ==> a == b || {a, b} == {CON, CHA};
    assert Label(CON)[1] != Label(CHA)[1];
  }

  /** The rebuilt payload says what the rows said; it passes the check of a later upgrade exactly if every amount has at
      most nine digits. */
  ghost predicate Means(entries: seq<Entry>, rows: seq<Increase>, c: int, upper: string -> string) {
    && ((forall e :: e in entries ==> WellFormed(e, upper)) <==> AllSmall(rows, c))
    && (forall a :: Occurs(entries, a, upper) <==> HasRow(rows, c, a))
    && ((forall e :: e in entries ==> WellFormed(e, upper)) ==>
          forall a :: Sum(entries, a, upper) == Total(rows, c, a))
  }

  ghost predicate AllSmall(rows: seq<Increase>, c: int) {
    forall r :: r in rows && r.choice == c ==> Small(r.amount)
  }

  lemma FormedSnoc(entries: seq<Entry>, rows: seq<Increase>, c: int, upper: string -> string, r: Increase)
    requires Uppers(upper) && r.choice == c
    requires (forall e :: e in entries ==> WellFormed(e, upper)) <==> AllSmall(rows, c)
    ensures (forall e :: e in entries + [EntryOf(r)] ==> WellFormed(e, upper)) <==> AllSmall(rows + [r], c)
  {
    var after := entries + [EntryOf(r)];
    assert after[|entries|] == EntryOf(r) && (rows + [r])[|rows|] == r;
    RowEntry(r, r.ability, upper);
    assert AllSmall(rows + [r], c) <==> AllSmall(rows, c) && Small(r.amount) by {
      assert forall x :: x in rows ==> x in rows + [r];
    }
    assert forall x :: x in entries ==> x in after;
  }

  lemma OccursSnoc(entries: seq<Entry>, rows: seq<Increase>, c: int, upper: string -> string, r: Increase, a: Ability)
    requires Uppers(upper) && r.choice == c && (Occurs(entries, a, upper) <==> HasRow(rows, c, a))
    ensures Occurs(entries + [EntryOf(r)], a, upper) <==> HasRow(rows + [r], c, a)
  {
    var after := entries + [EntryOf(r)];
    assert after[|entries|] == EntryOf(r);
    assert forall x :: x in entries ==> x in after;
    RowEntry(r, a, upper);
    HasRowSnoc(rows, r, c, a);
  }

  lemma SumSnoc(entries: seq<Entry>, rows: seq<Increase>, c: int, upper: string -> string, r: Increase, a: Ability)
    requires Uppers(upper) && r.choice == c
    requires forall e :: e in entries + [EntryOf(r)] ==> WellFormed(e, upper)
    requires forall e :: e in entries ==> WellFormed(e, upper)
    requires Sum(entries, a, upper) == Total(rows, c, a)
    ensures Sum(entries + [EntryOf(r)], a, upper) == Total(rows + [r], c, a)
  {
    var after := entries + [EntryOf(r)];
    assert after[..|entries|] == entries && after[|entries|] == EntryOf(r);
    RowEntry(r, a, upper);
    TotalSnoc(rows, r, c, a);
  }

  lemma MeansSnoc(entries: seq<Entry>, rows: seq<Increase>, c: int, upper: string -> string, r: Increase)
    requires Uppers(upper) && Means(entries, rows, c, upper) && r.choice == c
    ensures Means(entries + [EntryOf(r)], rows + [r], c, upper)
  {
    FormedSnoc(entries, rows, c, upper, r);
    forall a ensures Occurs(entries + [EntryOf(r)], a, upper) <==> HasRow(rows + [r], c, a) {
      OccursSnoc(entries, rows, c, upper, r, a);
    }
    if forall e :: e in entries + [EntryOf(r)] ==> WellFormed(e, upper) {
      assert forall x :: x in entries ==> x in entries + [EntryOf(r)];
      forall a ensures Sum(entries + [EntryOf(r)], a, upper) == Total(rows + [r], c, a) {
        SumSnoc(entries, rows, c, upper, r, a);
      }
    }
  }

  lemma MeansSkip(entries: seq<Entry>, rows: seq<Increase>, c: int, upper: string -> string, r: Increase)
    requires Means(entries, rows, c, upper) && r.choice != c
    ensures Means(entries, rows + [r], c, upper)
  {
    assert AllSmall(rows + [r], c) <==> AllSmall(rows, c) by {
      assert forall x :: x in rows ==> x in rows + [r];
    }
    forall a
      ensures HasRow(rows + [r], c, a) <==> HasRow(rows, c, a)
      ensures Total(rows + [r], c, a) == Total(rows, c, a)
    {
      HasRowSnoc(rows, r, c, a);
      TotalSnoc(rows, r, c, a);
    }
  }

  lemma {:induction false} RebuiltMeansRows(rows: seq<Increase>, c: int, upper: string -> string)
    requires Uppers(upper)
    ensures Means(Rebuilt(rows, c), rows, c, upper)
  {
    if rows != [] {
      var before, r := rows[..|rows| - 1], rows[|rows| - 1];
      RebuiltMeansRows(before, c, upper);
      assert before + [r] == rows;
      if r.choice == c {
        MeansSnoc(Rebuilt(before, c), before, c, upper, r);
      } else {
        MeansSkip(Rebuilt(before, c), before, c, upper, r);
        assert Rebuilt(rows, c) == Rebuilt(before, c);
      }
    }
  }

  lemma {:induction false} TotalIsAmount(rows: seq<Increase>, c: int, a: Ability)
    requires UniqueRows(rows)
    ensures HasRow(rows, c, a) ==> exists r :: r in rows && r.choice == c && Total(rows, c, a) == r.amount
    ensures !HasRow(rows, c, a) ==> Total(rows, c, a) == 0
  {
    if rows != [] {
      var before, r := rows[..|rows| - 1], rows[|rows| - 1];
      TotalIsAmount(before, c, a);
      assert before + [r] == rows;
      HasRowSnoc(before, r, c, a);
      if HasRow(before, c, a) {
        var x :| x in before && x.choice == c && Total(before, c, a) == x.amount;
        var y :| y in before && y.choice == c && y.ability == a;
        assert r.choice != c || r.ability != a;
        assert x in rows;
      }
    }
  }

  /** After a downgrade the next upgrade succeeds exactly if every amount has at most nine digits. */
  lemma RevertedIsUpgradable(rows: seq<Increase>, choices: map<int, Choice>, upper: string -> string)
    requires Uppers(upper) && AllTyped(choices) && UniqueRows(rows)
    requires forall r :: r in rows ==> r.choice in choices
    ensures Upgradable(Reverted(rows, choices), upper) <==> forall r :: r in rows ==> Small(r.amount)
    ensures forall c :: c in choices ==> Means(Entries(Reverted(rows, choices)[c]), rows, c, upper)
  {
    var reverted := Reverted(rows, choices);
    forall c | c in choices ensures Means(Entries(reverted[c]), rows, c, upper) {
      RebuiltMeansRows(rows, c, upper);
    }
    assert PayloadsWellFormed(reverted, upper) <==> forall c :: c in choices ==> AllSmall(rows, c);
    if PayloadsWellFormed(reverted, upper) {
      forall r | r in rows ensures Small(r.amount) {
        assert AllSmall(rows, r.choice);
      }
      forall c, a | c in choices ensures Int32(Sum(Entries(reverted[c]), a, upper)) {
        assert Means(Entries(reverted[c]), rows, c, upper);
        TotalIsAmount(rows, c, a);
      }
    }
  }

  lemma {:induction false} NoPoints(rows: seq<Increase>, choices: map<int, Choice>, character: int, a: Ability)
    requires forall c :: c in choices ==> choices[c].Typed? && choices[c].applied
    ensures Points(rows, choices, character, a) == 0
  {
    if rows != [] {
      NoPoints(rows[..|rows| - 1], choices, character, a);
    }
  }

  /** The subquery of the UPDATE. */
  method GroupByCharacter(rows: seq<Increase>, choices: map<int, Choice>) returns (totals: map<int, Scores>)
    requires AllTyped(choices)
    ensures Grouped(totals, rows, choices)
  {
    totals := map[];
    for i := 0 to |rows|
      invariant Grouped(totals, rows[..i], choices)
    {
      var r := rows[i];
      GroupOne(totals, rows[..i], choices, r);
      assert rows[..i + 1] == rows[..i] + [r];
      if r.choice in choices && !choices[r.choice].applied {
        var ch := choices[r.choice].character;
        var sums := if ch in totals then totals[ch] else Scores(0, 0, 0, 0, 0, 0);
        totals := totals[ch := sums.Plus(r.ability, r.amount)];
      }
    }
    assert rows[..|rows|] == rows;
  }

  function Folded(base: Scores, sums: Scores): (r: Scores)
    ensures forall a :: r.Get(a) == base.Get(a) + sums.Get(a)
  {
    Scores(base.strength + sums.strength, base.dexterity + sums.dexterity, base.constitution + sums.constitution,
           base.intelligence + sums.intelligence, base.wisdom + sums.wisdom, base.charisma + sums.charisma)
  }

  // ----- The database -----

  class Database {
    var characters: map<int, Scores>
    var choices: map<int, Choice>
    var increases: seq<Increase>

    /** The schema before the migration. */
    ghost predicate Old()
      reads this
    {
      AllLegacy(choices) && increases == [] && forall ch :: ch in characters ==> characters[ch].Fits()
    }

    /** The schema after it. */
    ghost predicate New()
      reads this
    {
      && AllTyped(choices) && UniqueRows(increases)
      && (forall r :: r in increases ==> r.choice in choices && Int32(r.amount))
      && (forall ch :: ch in characters ==> characters[ch].Fits())
    }

    ghost function Effective(character: int, a: Ability): int
      requires character in characters
      reads this
    {
      characters[character].Get(a) + Points(increases, choices, character, a)
    }

    method Upgrade(upper: string -> string) returns (ok: bool)
      requires Old()
      modifies this
      ensures ok <==> Upgradable(old(choices), upper)
      ensures !ok ==> choices == old(choices) && increases == old(increases) && characters == old(characters)
      ensures ok ==> New() && characters == old(characters) && choices.Keys == old(choices).Keys
      ensures ok ==> forall c :: c in choices ==> choices[c] == Typed(old(choices)[c].character, true)
      ensures ok ==> forall c, a :: c in choices ==>
        Total(increases, c, a) == Sum(Entries(old(choices)[c]), a, upper)
        && (HasRow(increases, c, a) <==> Occurs(Entries(old(choices)[c]), a, upper))
      ensures ok ==> forall ch, a :: ch in characters ==> Effective(ch, a) == old(characters)[ch].Get(a)
    {
      if !PayloadsWellFormed(choices, upper) {
        return false;
      }
      var inserted, rows := Insert(choices, upper);
      if !inserted {
        return false;
      }
      forall c, a | c in choices ensures (c, a) in Groups(choices) {
        EveryAbilityIsListed(a);
      }
      increases := rows;
      choices := map c | c in choices :: Typed(choices[c].character, true);
      forall ch, a ensures Points(increases, choices, ch, a) == 0 {
        NoPoints(increases, choices, ch, a);
      }
      ok := true;
    }

    /** The folded columns fit exactly if every effective score does. */
    lemma FoldedFits(after: map<int, Scores>)
      requires after.Keys == characters.Keys
      requires forall ch, a :: ch in after ==> after[ch].Get(a) == Effective(ch, a)
      ensures (forall ch :: ch in after ==> after[ch].Fits()) <==>
        forall ch, a :: ch in characters ==> Int32(Effective(ch, a))
    {
      FitsIsInt32(after);
      if forall ch, a :: ch in characters ==> Int32(Effective(ch, a)) {
        forall ch, a | ch in after ensures Int32(after[ch].Get(a)) {
          assert Int32(Effective(ch, a));
        }
      } else {
        var ch, a :| ch in characters && !Int32(Effective(ch, a));
        assert !Int32(after[ch].Get(a));
      }
    }

    method Downgrade() returns (ok: bool)
      requires New()
      modifies this
      ensures ok <==> forall ch, a :: ch in old(characters) ==> Int32(old(Effective(ch, a)))
      ensures !ok ==> choices == old(choices) && increases == old(increases) && characters == old(characters)
      ensures ok ==>
          Old() && choices == Reverted(old(increases), old(choices)) && characters.Keys == old(characters).Keys
      ensures ok ==> forall ch, a :: ch in characters ==> characters[ch].Get(a) == old(Effective(ch, a))
    {
      var totals := GroupByCharacter(increases, choices);
      var after := map ch | ch in characters ::
        if ch in totals then Folded(characters[ch], totals[ch]) else characters[ch];
      forall ch, a | ch in characters ensures after[ch].Get(a) == Effective(ch, a) {
        assert (if ch in totals then totals[ch].Get(a) else 0) == Points(increases, choices, ch, a);
      }
      ok := forall ch :: ch in after ==> after[ch].Fits();
      FoldedFits(after);
      if !ok {
        return;
      }
      characters := after;
      choices := Reverted(increases, choices);
      increases := [];
    }

    /** Down and up again: the points of every choice survive, and so does every effective score. */
    method DowngradeThenUpgrade(upper: string -> string) returns (down: bool, up: bool)
      requires New() && Uppers(upper)
      modifies this
      ensures down <==> forall ch, a :: ch in old(characters) ==> Int32(old(Effective(ch, a)))
      ensures down ==> (up <==> forall r :: r in old(increases) ==> Small(r.amount))
      ensures down && up ==> New() && characters.Keys == old(characters).Keys && choices.Keys == old(choices).Keys
      ensures down && up ==> forall c, a :: c in choices ==>
        Total(increases, c, a) == Total(old(increases), c, a)
        && (HasRow(increases, c, a) <==> HasRow(old(increases), c, a))
      ensures down && up ==> forall ch, a :: ch in characters ==> Effective(ch, a) == old(Effective(ch, a))
      ensures !down ==> !up
    {
      RevertedIsUpgradable(increases, choices, upper);
      down := Downgrade();
      up := false;
      if down {
        up := Upgrade(upper);
      }
    }
  }

  /** One choice of ten digits, already applied: it goes down, and does not come up again. */
  method TenDigitsStayDown(upper: string -> string) returns (down: bool, up: bool)
    requires Uppers(upper)
    ensures down && !up
  {
    var db := new Database;
    db.characters := map[1 := Scores(10, 10, 10, 10, 10, 10)];
    db.choices := map[5 := Typed(1, true)];
    db.increases := [Increase(5, STR, 1_000_000_000)];
    forall ch, a | ch in db.characters ensures Int32(db.Effective(ch, a)) {
      NoPoints(db.increases, db.choices, ch, a);
    }
    assert db.increases[0] in db.increases && !Small(db.increases[0].amount);
    down, up := db.DowngradeThenUpgrade(upper);
  }

  lemma FitsIsInt32(characters: map<int, Scores>)
    ensures (forall ch :: ch in characters ==> characters[ch].Fits()) <==>
      forall ch, a :: ch in characters ==> Int32(characters[ch].Get(a))
  {
    forall ch | ch in characters ensures characters[ch].Fits() <==> forall a :: Int32(characters[ch].Get(a)) {
      var s := characters[ch];
      assert s.strength == s.Get(STR) && s.dexterity == s.Get(DEX) && s.constitution == s.Get(CON);
      assert s.intelligence == s.Get(INT) && s.wisdom == s.Get(WIS) && s.charisma == s.Get(CHA);
    }
  }
}
