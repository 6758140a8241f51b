/** Cache keys and the index sets they belong to (`_index_names`, `_purge_namespace` in app/core/cache/client.py). */
module CacheKeys {

  // ----- str.split(":") -----

  function FirstColon(s: string): (k: nat)
    ensures k <= |s|
    ensures k < |s| ==> s[k] == ':'
    ensures ':' !in s[..k]
  {
    if s == "" || s[0] == ':' then 0
    else
      var k := 1 + FirstColon(s[1..]);
      assert s[..k] == [s[0]] + s[1..][..k - 1];
      k
  }

  /** The pieces of `s` between its colons: joined by colons again they give `s`. */
  function Split(s: string): (segments: seq<string>)
    ensures |segments| > 0
    ensures forall i :: 0 <= i < |segments| ==> ':' !in segments[i]
    ensures Joined(segments) == s
  {
    var k := FirstColon(s);
    if k == |s| then
      assert s[..k] == s;
      [s]
    else
      var rest := Split(s[k + 1..]);
      assert ([s[..k]] + rest)[1..] == rest && s == s[..k] + ":" + s[k + 1..];
      [s[..k]] + rest
  }

  function Joined(segments: seq<string>): string
    requires |segments| > 0
  {
    if |segments| == 1 then segments[0] else segments[0] + ":" + Joined(segments[1..])
  }

  lemma {:induction false} FirstColonAt(a: string, rest: string)
    requires ':' !in a
    ensures FirstColon(a + ":" + rest) == |a|
    ensures FirstColon(a) == |a|
  {
    if a != "" {
      FirstColonAt(a[1..], rest);
      assert (a + ":" + rest)[1..] == a[1..] + ":" + rest;
    }
  }

  lemma SplitFirst(a: string, rest: string)
    requires ':' !in a
    ensures Split(a + ":" + rest) == [a] + Split(rest)
    ensures Split(a) == [a]
  {
    var s := a + ":" + rest;
    FirstColonAt(a, rest);
    assert s[..|a|] == a && s[|a| + 1..] == rest;
  }

  lemma ColonAssoc(a: string, b: string, c: string)
    ensures a + ":" + b + ":" + c == a + ":" + (b + ":" + c)
  {
  }

  /** Splitting goes over concatenation with a colon. */
  lemma {:induction false} SplitConcat(a: string, b: string)
    ensures Split(a + ":" + b) == Split(a) + Split(b)
    decreases |a|
  {
    var k := FirstColon(a);
    if k == |a| {
      assert a[..k] == a;
      SplitFirst(a, b);
    } else {
      var head, tail := a[..k], a[k + 1..];
      assert a == head + ":" + tail;
      ColonAssoc(head, tail, b);
      SplitFirst(head, tail + ":" + b);
      SplitConcat(tail, b);
      calc {
        Split(a + ":" + b);
        [head] + Split(tail + ":" + b);
        [head] + (Split(tail) + Split(b));
        [head] + Split(tail) + Split(b);
        Split(a) + Split(b);
      }
    }
  }

  lemma PairsDiffer(a: string, b: string, c: string, d: string)
    requires ':' !in a && ':' !in b && ':' !in c && ':' !in d
    ensures a + ":" + b == c + ":" + d <==> a == c && b == d
    ensures a != c + ":" + d
  {
    SplitFirst(a, b);
    SplitFirst(b, "");
    SplitFirst(c, d);
    SplitFirst(d, "");
    assert Split(a + ":" + b) == [a, b] && Split(c + ":" + d) == [c, d] && Split(a) == [a];
    assert [a, b][0] == a && [a, b][1] == b && [c, d][0] == c && [c, d][1] == d && |[a]| == 1;
  }

  lemma SplitOff(s: string) returns (rest: string)
    requires |Split(s)| >= 2
    ensures s == Split(s)[0] + ":" + rest && Split(s)[1..] == Split(rest)
  {
    var k := FirstColon(s);
    rest := s[k + 1..];
    assert s == s[..k] + ":" + rest;
  }

  // ----- Index names -----

  /** `<prefix>:__idx:<segment>` */
  function TopIndex(prefix: string, a: string): string {
    prefix + ":__idx:" + a
  }

  /** `<prefix>:__idx:<segment>:<segment>` */
  function SecondIndex(prefix: string, a: string, b: string): string {
    TopIndex(prefix, a + ":" + b)
  }

  /** `_index_names` */
  function IndexNames(prefix: string, key: string): seq<string> {
    if !(prefix + ":" <= key) then []
    else
      var segments := Split(key[|prefix| + 1..]);
      if |segments| < 2 then []
      else if |segments| == 2 then [TopIndex(prefix, segments[0])]
      else [TopIndex(prefix, segments[0]), SecondIndex(prefix, segments[0], segments[1])]
  }

  /** `key` starts with `<prefix>:<namespace>:`. */
  predicate Under(prefix: string, namespace: string, key: string) {
    prefix + ":" + namespace + ":" <= key
  }

  /** The index whose members a purge of `namespace` reads. */
  function PurgedIndex(prefix: string, namespace: string): string {
    var segments := Split(namespace);
    if |segments| == 1 then TopIndex(prefix, segments[0]) else SecondIndex(prefix, segments[0], segments[1])
  }

  /** The index a purge of two or more segments also clears. */
  function AlsoCleared(prefix: string, namespace: string): seq<string> {
    var segments := Split(namespace);
    if |segments| == 1 then [] else [TopIndex(prefix, segments[0])]
  }

  /** Whether a purge of `namespace` deletes the member `key` of its index: deeper namespaces filter it. */
  predicate Selected(prefix: string, namespace: string, key: string) {
    |Split(namespace)| >= 3 ==> Under(prefix, namespace, key)
  }

  // ----- What the indexes mean -----

  lemma TopIndexInjective(prefix: string, a: string, b: string)
    ensures TopIndex(prefix, a) == TopIndex(prefix, b) ==> a == b
  {
    if TopIndex(prefix, a) == TopIndex(prefix, b) {
      assert TopIndex(prefix, a)[|prefix| + 7..] == a;
      assert TopIndex(prefix, b)[|prefix| + 7..] == b;
    }
  }

  lemma PurgedIndexBySegments(prefix: string, namespace: string, key: string)
    requires prefix + ":" <= key
    ensures var n, s := Split(namespace), Split(key[|prefix| + 1..]);
            PurgedIndex(prefix, namespace) in IndexNames(prefix, key) <==>
            if |n| == 1 then |s| >= 2 && s[0] == n[0] else |s| >= 3 && s[0] == n[0] && s[1] == n[1]
  {
    var n, s := Split(namespace), Split(key[|prefix| + 1..]);
    var n1, s1 := if |n| == 1 then "" else n[1], if |s| == 1 then "" else s[1];
    PairsDiffer(n[0], n1, s[0], s1);
    PairsDiffer(s[0], s1, n[0], n1);
    var wanted := if |n| == 1 then n[0] else n[0] + ":" + n1;
    TopIndexInjective(prefix, wanted, s[0]);
    TopIndexInjective(prefix, wanted, s[0] + ":" + s1);
  }

  lemma UnderSplits(prefix: string, namespace: string, key: string) returns (rest: string)
    requires Under(prefix, namespace, key)
    ensures prefix + ":" <= key
    ensures Split(key[|prefix| + 1..]) == Split(namespace) + Split(rest)
  {
    var head := prefix + ":" + namespace + ":";
    rest := key[|head|..];
    assert key == head + rest;
    assert prefix + ":" == key[..|prefix| + 1];
    assert key[|prefix| + 1..] == namespace + ":" + rest;
    SplitConcat(namespace, rest);
  }

  lemma UnderIntro(prefix: string, namespace: string, rest: string)
    ensures Under(prefix, namespace, prefix + ":" + (namespace + ":" + rest))
  {
    assert prefix + ":" + (namespace + ":" + rest) == prefix + ":" + namespace + ":" + rest;
  }

  lemma Unsplit(s: string)
    ensures |Split(s)| == 1 ==> s == Split(s)[0]
    ensures |Split(s)| == 2 ==> s == Split(s)[0] + ":" + Split(s)[1]
  {
    var k := FirstColon(s);
    assert s[..k] + s[k..] == s;
    if |Split(s)| == 2 {
      var rest := SplitOff(s);
      assert Split(rest) == [Split(s)[1]];
      assert FirstColon(rest) == |rest| && rest[..|rest|] == rest;
    }
  }

  lemma SegmentsGiveUnder(prefix: string, namespace: string, key: string)
    requires prefix + ":" <= key
    requires var n, s := Split(namespace), Split(key[|prefix| + 1..]);
             |n| <= 2 && |s| > |n| && s[0] == n[0] && (|n| == 2 ==> s[1] == n[1])
    ensures Under(prefix, namespace, key)
  {
    var tail := key[|prefix| + 1..];
    assert key == prefix + ":" + tail;
    var n := Split(namespace);
    var rest := SplitOff(tail);
    Unsplit(namespace);
    if |n| == 1 {
      UnderIntro(prefix, namespace, rest);
    } else {
      var rest2 := SplitOff(rest);
      ColonAssoc(n[0], n[1], rest2);
      UnderIntro(prefix, namespace, rest2);
    }
  }

  /** The keys a purge selects from its index are exactly the keys that start with `<prefix>:<namespace>:`,
      whatever the depth of the namespace. */
  lemma IndexSelectsNamespace(prefix: string, namespace: string, key: string)
    ensures PurgedIndex(prefix, namespace) in IndexNames(prefix, key) && Selected(prefix, namespace, key) <==>
            Under(prefix, namespace, key)
  {
    if Under(prefix, namespace, key) {
      var rest := UnderSplits(prefix, namespace, key);
      PurgedIndexBySegments(prefix, namespace, key);
    } else if prefix + ":" <= key {
      PurgedIndexBySegments(prefix, namespace, key);
      if PurgedIndex(prefix, namespace) in IndexNames(prefix, key) && |Split(namespace)| <= 2 {
        SegmentsGiveUnder(prefix, namespace, key);
      }
    }
  }

  /** Every key belongs to at most its purged index and the index that a purge of its namespace also clears. */
  lemma PurgeClearsTop(prefix: string, namespace: string, key: string)
    requires Under(prefix, namespace, key)
    ensures forall name :: name in AlsoCleared(prefix, namespace) ==> name in IndexNames(prefix, key)
  {
    var rest := UnderSplits(prefix, namespace, key);
  }
}
