/**
 * The description fixer: it rewrites the id → description file so that descriptions are
 * safe file names and, as far as it manages, unique. Two sanitising passes replace `/`
 * by `-` and `"` by `'`; descriptions shared by several ids then get the last three
 * characters of the id appended; descriptions still shared get the last six characters
 * or the whole id instead; the result is saved sorted by id.
 *
 * Reading and writing the JSON file and the console report are left out: the file's
 * contents are the input, and what would be saved is the output.
 */
module FixDuplicates {
  import opened Wrappers
  import opened Text
  import opened OrderedMaps

  /** The descriptions file: animation id → description, in file order. */
  type Anims = OrderedMap<string, string>

  /** The groups of ids sharing a description: description → ids, as `value_to_ids` holds them. */
  type Groups = OrderedMap<string, seq<string>>

  // ---------------------------------------------------------------------------
  // Sanitising passes

  /** How many of the first n entries have a description containing `c`. */
  function CountWith(m: Anims, c: char, n: nat): nat
    requires m.Valid() && n <= |m.keys|
  {
    if n == 0 then 0 else CountWith(m, c, n - 1) + (if c in m.values[m.keys[n - 1]] then 1 else 0)
  }

  /** Every description with `c` replaced by `d`; the ids and their order are unchanged. */
  function Sanitised(m: Anims, c: char, d: char): Anims
  {
    OrderedMap(m.keys, map k | k in m.values :: Replace(m.values[k], c, d))
  }

  /**
   * After a pass no description contains the replaced character, the ids are the same, and
   * a description without the character is left as it was.
   */
  lemma SanitisedRemoves(m: Anims, c: char, d: char)
    requires m.Valid() && c != d
    ensures Sanitised(m, c, d).Valid()
    ensures Sanitised(m, c, d).keys == m.keys && Sanitised(m, c, d).values.Keys == m.values.Keys
    ensures forall k :: k in m.values ==> c !in Sanitised(m, c, d).values[k]
    ensures forall k :: k in m.values && c !in m.values[k] ==> Sanitised(m, c, d).values[k] == m.values[k]
  {
    forall k | k in m.values ensures c !in Sanitised(m, c, d).values[k] {
      ReplaceRemoves(m.values[k], c, d, c);
    }
    forall k | k in m.values && c !in m.values[k] ensures Sanitised(m, c, d).values[k] == m.values[k] {
      ReplaceAbsent(m.values[k], c, d);
    }
  }

  /**
   * One sanitising pass: for each entry in file order, a description containing `c` is
   * counted and rewritten with `c` replaced by `d`.
   */
  method SanitisePass(m: Anims, c: char, d: char) returns (m': Anims, count: nat)
    requires m.Valid()
    ensures m' == Sanitised(m, c, d)
    ensures count == CountWith(m, c, |m.keys|)
  {
    m' := m;
    count := 0;
    MappedStart(m, Replacing(c, d));
    for i := 0 to |m.keys|
      invariant MappedUpTo(m, m', Replacing(c, d), i)
      invariant count == CountWith(m, c, i)
    {
      m', count := SanitiseEntry(m, m', c, d, i, count);
    }
    SanitisedIs(m, m', c, d);
  }

  lemma SanitisedIs(m: Anims, m': Anims, c: char, d: char)
    requires m.Valid() && MappedUpTo(m, m', Replacing(c, d), |m.keys|)
    ensures m' == Sanitised(m, c, d)
  {
    MappedAll(m, m', Replacing(c, d));
  }

  /** Replacing `c` by `d` in one description. */
  function Replacing(c: char, d: char): string -> string
  {
    v => Replace(v, c, d)
  }

  /** The body of a sanitising pass for the i-th entry. */
  method SanitiseEntry(m: Anims, m': Anims, c: char, d: char, i: nat, count: nat) returns (m'': Anims, count': nat)
    requires m.Valid() && i < |m.keys| && MappedUpTo(m, m', Replacing(c, d), i)
    requires count == CountWith(m, c, i)
    ensures MappedUpTo(m, m'', Replacing(c, d), i + 1)
    ensures count' == CountWith(m, c, i + 1)
  {
    var id := m.keys[i];
    var value := m'.values[id];
    count' := count;
    if c in value {
      count' := count + 1;
      m'' := OrderedMap(m'.keys, m'.values[id := Replace(value, c, d)]);
      MappedStep(m, m', Replacing(c, d), i, m'');
    } else {
      m'' := m';
      ReplaceAbsent(value, c, d);
      assert m'.values[id := Replacing(c, d)(value)] == m'.values;
      MappedStep(m, m', Replacing(c, d), i, m');
    }
  }

  // ---------------------------------------------------------------------------
  // Grouping ids by description

  /** The ids among the first n entries whose description is `v`, in file order. */
  function IdsWith(m: Anims, v: string, n: nat): seq<string>
    requires m.Valid() && n <= |m.keys|
  {
    if n == 0 then [] else IdsWith(m, v, n - 1) + (if m.values[m.keys[n - 1]] == v then [m.keys[n - 1]] else [])
  }

  /**
   * `value_to_ids` after the first n entries: each description maps to the list of its
   * ids, and the descriptions are in order of first appearance.
   */
  function GroupsUpTo(m: Anims, n: nat): (g: Groups)
    requires m.Valid() && n <= |m.keys|
    ensures g.Valid()
  {
    if n == 0 then Empty()
    else
      var g0 := GroupsUpTo(m, n - 1);
      var id := m.keys[n - 1];
      var v := m.values[id];
      g0.Put(v, (if v in g0.values then g0.values[v] else []) + [id])
  }

  /** Each description present maps to exactly the ids that carry it, in file order. */
  lemma GroupsContents(m: Anims, n: nat)
    requires m.Valid() && n <= |m.keys|
    ensures forall v :: v in GroupsUpTo(m, n).values <==> IdsWith(m, v, n) != []
    ensures forall v :: v in GroupsUpTo(m, n).values ==> GroupsUpTo(m, n).values[v] == IdsWith(m, v, n)
  {
    forall v {
      GroupsContentsAt(m, n, v);
    }
  }

  /** An id is in the list of ids for description `v` exactly when its description is `v`. */
  lemma IdsWithMembers(m: Anims, v: string, n: nat)
    requires m.Valid() && n <= |m.keys|
    ensures forall k :: k in IdsWith(m, v, n) <==> k in m.keys[..n] && m.values[k] == v
  {
    forall k {
      IdsWithMember(m, v, n, k);
    }
  }

  /** `GroupsContents` for one description. */
  lemma {:induction false} GroupsContentsAt(m: Anims, n: nat, v: string)
    requires m.Valid() && n <= |m.keys|
    ensures v in GroupsUpTo(m, n).values <==> IdsWith(m, v, n) != []
    ensures v in GroupsUpTo(m, n).values ==> GroupsUpTo(m, n).values[v] == IdsWith(m, v, n)
  {
    if n > 0 {
      GroupsContentsAt(m, n - 1, v);
    }
  }

  /** `IdsWithMembers` for one id, over all entries. */
  lemma {:induction false} IdsWithMember(m: Anims, v: string, n: nat, k: string)
    requires m.Valid() && n <= |m.keys|
    ensures k in IdsWith(m, v, n) <==> k in m.keys[..n] && m.values[k] == v
  {
    if n > 0 {
      IdsWithMember(m, v, n - 1, k);
      assert m.keys[..n] == m.keys[..n - 1] + [m.keys[n - 1]];
    }
  }

  /** Builds `value_to_ids` by appending each id to its description's list, in file order. */
  method GroupByValue(m: Anims) returns (g: Groups)
    requires m.Valid()
    ensures g == GroupsUpTo(m, |m.keys|)
  {
    g := Empty();
    for i := 0 to |m.keys|
      invariant g == GroupsUpTo(m, i)
    {
      g := AddToGroup(m, g, i);
    }
  }

  /** `value_to_ids[value].append(id)` for the i-th entry. */
  method AddToGroup(m: Anims, g: Groups, i: nat) returns (g': Groups)
    requires m.Valid() && i < |m.keys| && g == GroupsUpTo(m, i)
    ensures g' == GroupsUpTo(m, i + 1)
  {
    var id := m.keys[i];
    var v := m.values[id];
    var ids := if v in g.values then g.values[v] else [];
    g' := g.Put(v, ids + [id]);
  }

  /** A description is shared when at least two of the entries carry it. */
  ghost predicate Shared(m: Anims, v: string)
    requires m.Valid()
  {
    |IdsWith(m, v, |m.keys|)| > 1
  }

  /**
   * The items of `{v: ids for v, ids in value_to_ids.items() if len(ids) > 1}` taken from
   * the first n descriptions of `g`, in the dictionary's order.
   */
  function DuplicateItems(g: Groups, n: nat): (r: seq<(string, seq<string>)>)
    requires g.Valid() && n <= |g.keys|
    ensures forall i :: 0 <= i < |r| ==> r[i].0 in g.values && r[i].1 == g.values[r[i].0] && |r[i].1| > 1
  {
    if n == 0 then []
    else
      var v := g.keys[n - 1];
      DuplicateItems(g, n - 1) + (if |g.values[v]| > 1 then [(v, g.values[v])] else [])
  }

  /** Every shared description among the first n has its item. */
  lemma {:induction false} DuplicateItemsComplete(g: Groups, n: nat)
    requires g.Valid() && n <= |g.keys|
    ensures forall j :: 0 <= j < n && |g.values[g.keys[j]]| > 1 ==>
              (g.keys[j], g.values[g.keys[j]]) in DuplicateItems(g, n)
  {
    if n > 0 {
      DuplicateItemsComplete(g, n - 1);
    }
  }

  /** `[(id, v) for v, ids in items for id in ids]`: the entries to rewrite, group by group. */
  function Flatten(items: seq<(string, seq<string>)>): seq<(string, string)>
  {
    if items == [] then []
    else
      var last := items[|items| - 1];
      Flatten(items[..|items| - 1]) + Pairs(last.1, last.0)
  }

  /** `[(id, v) for id in ids]`. */
  function Pairs(ids: seq<string>, v: string): (r: seq<(string, string)>)
    ensures |r| == |ids| && forall j :: 0 <= j < |ids| ==> r[j] == (ids[j], v)
  {
    seq(|ids|, j requires 0 <= j < |ids| => (ids[j], v))
  }

  /** A target pair comes from an item listing the id under that description. */
  lemma {:induction false} FlattenSound(items: seq<Item>, id: string, v: string)
    requires (id, v) in Flatten(items)
    ensures exists i :: 0 <= i < |items| && items[i].0 == v && id in items[i].1
  {
    var init := items[..|items| - 1];
    var last := items[|items| - 1];
    if (id, v) in Flatten(init) {
      FlattenSound(init, id, v);
      var i :| 0 <= i < |init| && init[i].0 == v && id in init[i].1;
      assert items[i] == init[i];
    } else {
      assert (id, v) in Pairs(last.1, last.0);
      var j :| 0 <= j < |last.1| && Pairs(last.1, last.0)[j] == (id, v);
      assert items[|items| - 1].0 == v && id in items[|items| - 1].1;
    }
  }

  /** Every id an item lists is a target, paired with the item's description. */
  lemma {:induction false} FlattenComplete(items: seq<Item>, i: nat, id: string)
    requires i < |items| && id in items[i].1
    ensures (id, items[i].0) in Flatten(items)
  {
    var init := items[..|items| - 1];
    var last := items[|items| - 1];
    if i < |init| {
      assert init[i] == items[i];
      FlattenComplete(init, i, id);
    } else {
      var j :| 0 <= j < |last.1| && last.1[j] == id;
      assert Pairs(last.1, last.0)[j] == (id, last.0);
    }
  }

  /** A target pair names an entry, its current description, and that description is shared. */
  lemma TargetIsShared(m: Anims, id: string, v: string)
    requires m.Valid() && (id, v) in Flatten(Duplicates(m))
    ensures id in m.values && m.values[id] == v && Shared(m, v)
  {
    var n := |m.keys|;
    var g := GroupsUpTo(m, n);
    var items := DuplicateItems(g, |g.keys|);
    FlattenSound(items, id, v);
    var i :| 0 <= i < |items| && items[i].0 == v && id in items[i].1;
    GroupsContentsAt(m, n, v);
    IdsWithMember(m, v, n, id);
    assert m.keys[..|m.keys|] == m.keys;
  }

  /** An entry whose description is shared is a target, paired with that description. */
  lemma SharedIsTarget(m: Anims, id: string)
    requires m.Valid() && id in m.values && Shared(m, m.values[id])
    ensures (id, m.values[id]) in Flatten(Duplicates(m))
  {
    var n := |m.keys|;
    var g := GroupsUpTo(m, n);
    var items := DuplicateItems(g, |g.keys|);
    var v := m.values[id];
    GroupsContentsAt(m, n, v);
    assert m.keys[..|m.keys|] == m.keys;
    IdsWithMember(m, v, n, id);
    assert v in g.keys;
    var j :| 0 <= j < |g.keys| && g.keys[j] == v;
    DuplicateItemsComplete(g, |g.keys|);
    assert (v, g.values[v]) in items;
    var i :| 0 <= i < |items| && items[i] == (v, g.values[v]);
    FlattenComplete(items, i, id);
  }

  /**
   * The targets taken from `value_to_ids` are exactly the entries whose description is
   * shared, each paired with its current description.
   */
  lemma TargetsAreShared(m: Anims)
    requires m.Valid()
    ensures forall id, v :: (id, v) in Flatten(Duplicates(m)) ==>
              id in m.values && m.values[id] == v && Shared(m, v)
    ensures forall id :: id in m.values && Shared(m, m.values[id]) ==>
              (id, m.values[id]) in Flatten(Duplicates(m))
  {
    forall id, v | (id, v) in Flatten(Duplicates(m)) ensures id in m.values && m.values[id] == v && Shared(m, v) {
      TargetIsShared(m, id, v);
    }
    forall id | id in m.values && Shared(m, m.values[id]) ensures (id, m.values[id]) in Flatten(Duplicates(m)) {
      SharedIsTarget(m, id);
    }
  }

  // ---------------------------------------------------------------------------
  // Phase 1: the last three characters of the id

  /** `f"{value}-{id[-3:]}"`. */
  function Suffix3(id: string, value: string): string
  {
    value + "-" + Last(id, 3)
  }

  /** The file after the Phase 1 assignments `mixamo_anims[id] = f"{value}-{id[-3:]}"` for the targets in `ts`, in order. */
  function Suffixed(m: Anims, ts: seq<(string, string)>): (r: Anims)
    requires m.Valid()
    ensures r.Valid()
  {
    if ts == [] then m
    else
      var last := ts[|ts| - 1];
      Suffixed(m, ts[..|ts| - 1]).Put(last.0, Suffix3(last.0, last.1))
  }

  /**
   * When every target carries its entry's description, the assignments suffix exactly the
   * targeted entries and leave the others alone; no id is added.
   */
  lemma {:induction false} SuffixedAt(m: Anims, ts: seq<(string, string)>)
    requires m.Valid()
    requires forall id, v :: (id, v) in ts ==> id in m.values && m.values[id] == v
    ensures Suffixed(m, ts).keys == m.keys
    ensures forall k :: k in m.values ==>
              Suffixed(m, ts).values[k] == if (k, m.values[k]) in ts then Suffix3(k, m.values[k]) else m.values[k]
  {
    if ts != [] {
      var init := ts[..|ts| - 1];
      var last := ts[|ts| - 1];
      assert ts == ts[..|ts| - 1] + [ts[|ts| - 1]];
      SuffixedAt(m, init);
      assert last in ts;
      forall k | k in m.values && k != last.0
        ensures (k, m.values[k]) in ts <==> (k, m.values[k]) in init
      {
      }
    }
  }

  /** The Phase 1 result: every entry with a shared description gets `-` and its id's last three characters. */
  lemma Phase1Effect(m: Anims)
    requires m.Valid()
    ensures Suffixed(m, Flatten(Duplicates(m))).keys == m.keys
    ensures forall k :: k in m.values ==>
              Suffixed(m, Flatten(Duplicates(m))).values[k] ==
                if Shared(m, m.values[k]) then Suffix3(k, m.values[k]) else m.values[k]
  {
    TargetsAreShared(m);
    SuffixedAt(m, Flatten(Duplicates(m)));
  }

  /** The Phase 1 loop: each target's description becomes `value-<last 3 of id>`. */
  method SuffixPass(m: Anims, ts: seq<(string, string)>) returns (m': Anims)
    requires m.Valid()
    ensures m' == Suffixed(m, ts)
  {
    m' := m;
    for t := 0 to |ts|
      invariant m' == Suffixed(m, ts[..t])
    {
      var id := ts[t].0;
      var originalValue := ts[t].1;
      var suffix := Last(id, 3);
      m' := m'.Put(id, originalValue + "-" + suffix);
      assert ts[..t + 1][..t] == ts[..t] && ts[..t + 1][t] == ts[t];
    }
    assert ts[..|ts|] == ts;
  }

  // ---------------------------------------------------------------------------
  // Detecting duplicates

  /** The description of the i-th entry in file order. */
  function ValueAt(m: Anims, i: nat): string
    requires m.Valid() && i < |m.keys|
  {
    m.values[m.keys[i]]
  }

  /** Two different entries carry the same description. */
  ghost predicate HasDuplicates(m: Anims)
    requires m.Valid()
  {
    exists i, j :: 0 <= i < j < |m.keys| && ValueAt(m, i) == ValueAt(m, j)
  }

  /** Some id among the first n carries `v` exactly when one of the first n descriptions is `v`. */
  lemma {:induction false} IdsWithSome(m: Anims, v: string, n: nat)
    requires m.Valid() && n <= |m.keys|
    ensures |IdsWith(m, v, n)| > 0 <==> exists i :: 0 <= i < n && ValueAt(m, i) == v
  {
    if n > 0 {
      IdsWithSome(m, v, n - 1);
      if |IdsWith(m, v, n - 1)| > 0 {
        var i :| 0 <= i < n - 1 && ValueAt(m, i) == v;
        assert 0 <= i < n && ValueAt(m, i) == v;
      }
      if ValueAt(m, n - 1) == v {
        assert 0 <= n - 1 < n && ValueAt(m, n - 1) == v;
      }
      if exists i :: 0 <= i < n && ValueAt(m, i) == v {
        var i :| 0 <= i < n && ValueAt(m, i) == v;
        if i < n - 1 {
          assert 0 <= i < n - 1 && ValueAt(m, i) == v;
        }
      }
    }
  }

  /** At least two ids among the first n carry `v` exactly when two of the first n descriptions are `v`. */
  lemma IdsWithTwo(m: Anims, v: string, n: nat)
    requires m.Valid() && n <= |m.keys|
    ensures |IdsWith(m, v, n)| > 1 <==> exists i, j :: 0 <= i < j < n && ValueAt(m, i) == v && ValueAt(m, j) == v
  {
    if |IdsWith(m, v, n)| > 1 {
      IdsWithTwoSound(m, v, n);
    }
    if exists i, j :: 0 <= i < j < n && ValueAt(m, i) == v && ValueAt(m, j) == v {
      var i, j :| 0 <= i < j < n && ValueAt(m, i) == v && ValueAt(m, j) == v;
      IdsWithTwoComplete(m, v, n, i, j);
    }
  }

  lemma {:induction false} IdsWithTwoSound(m: Anims, v: string, n: nat)
    requires m.Valid() && n <= |m.keys| && |IdsWith(m, v, n)| > 1
    ensures exists i, j :: 0 <= i < j < n && ValueAt(m, i) == v && ValueAt(m, j) == v
  {
    if |IdsWith(m, v, n - 1)| > 1 {
      IdsWithTwoSound(m, v, n - 1);
      var i, j :| 0 <= i < j < n - 1 && ValueAt(m, i) == v && ValueAt(m, j) == v;
      assert 0 <= i < j < n && ValueAt(m, i) == v && ValueAt(m, j) == v;
    } else {
      IdsWithSome(m, v, n - 1);
      var i :| 0 <= i < n - 1 && ValueAt(m, i) == v;
      assert 0 <= i < n - 1 < n && ValueAt(m, i) == v && ValueAt(m, n - 1) == v;
    }
  }

  lemma IdsWithTwoComplete(m: Anims, v: string, n: nat, i: nat, j: nat)
    requires m.Valid() && i < j < n <= |m.keys| && ValueAt(m, i) == v && ValueAt(m, j) == v
    ensures |IdsWith(m, v, n)| > 1
  {
    IdsWithGrows(m, v, i + 1, j);
    IdsWithGrows(m, v, j + 1, n);
  }

  /** The list of ids for a description only grows as more entries are seen. */
  lemma {:induction false} IdsWithGrows(m: Anims, v: string, k: nat, n: nat)
    requires m.Valid() && k <= n <= |m.keys|
    ensures |IdsWith(m, v, k)| <= |IdsWith(m, v, n)|
  {
    if k < n {
      IdsWithGrows(m, v, k, n - 1);
    }
  }

  /**
   * `duplicate_values` (equally, the values counted more than once by `Counter`) is empty
   * exactly when no two entries share a description.
   */
  lemma DuplicatesFoundIff(m: Anims)
    requires m.Valid()
    ensures Duplicates(m) != [] <==> HasDuplicates(m)
  {
    var n := |m.keys|;
    var g := GroupsUpTo(m, n);
    var items := DuplicateItems(g, |g.keys|);
    if items != [] {
      var v := items[0].0;
      GroupsContentsAt(m, n, v);
      IdsWithTwoSound(m, v, n);
      var i, j :| 0 <= i < j < n && ValueAt(m, i) == v && ValueAt(m, j) == v;
    }
    if HasDuplicates(m) {
      var i, j :| 0 <= i < j < n && ValueAt(m, i) == ValueAt(m, j);
      var v := ValueAt(m, i);
      IdsWithTwoComplete(m, v, n, i, j);
      GroupsContentsAt(m, n, v);
      assert v in g.keys;
      var k :| 0 <= k < |g.keys| && g.keys[k] == v;
      DuplicateItemsComplete(g, |g.keys|);
      assert (v, g.values[v]) in items;
    }
  }


  // ---------------------------------------------------------------------------
  // Phase 2 ordering: `sorted(items, key=lambda x: len(x[1]), reverse=True)`

  type Item = (string, seq<string>)

  /** Groups with more ids come first. */
  ghost predicate SizeDescending(s: seq<Item>)
  {
    forall i, j :: 0 <= i < j < |s| ==> |s[i].1| >= |s[j].1|
  }

  lemma DescendingTail(s: seq<Item>)
    requires s != [] && SizeDescending(s)
    ensures SizeDescending(s[1..])
  {
    forall i, j | 0 <= i < j < |s| - 1 ensures |s[1..][i].1| >= |s[1..][j].1| {
      assert s[1..][i] == s[i + 1] && s[1..][j] == s[j + 1];
    }
  }

  /** The groups of exactly k ids, in their order in `s`. */
  function OfSize(s: seq<Item>, k: nat): seq<Item>
  {
    if s == [] then [] else (if |s[0].1| == k then [s[0]] else []) + OfSize(s[1..], k)
  }

  lemma {:induction false} OfSizeAppend(a: seq<Item>, b: seq<Item>, k: nat)
    ensures OfSize(a + b, k) == OfSize(a, k) + OfSize(b, k)
  {
    if a == [] {
      assert a + b == b;
    } else {
      var h := if |a[0].1| == k then [a[0]] else [];
      assert (a + b)[0] == a[0];
      assert (a + b)[1..] == a[1..] + b;
      assert OfSize(a + b, k) == h + OfSize(a[1..] + b, k);
      OfSizeAppend(a[1..], b, k);
      assert h + (OfSize(a[1..], k) + OfSize(b, k)) == (h + OfSize(a[1..], k)) + OfSize(b, k);
    }
  }

  /** A descending sequence whose first group is smaller than k has no group of size k. */
  lemma {:induction false} OfSizeNone(s: seq<Item>, k: nat)
    requires SizeDescending(s) && (s != [] ==> |s[0].1| < k)
    ensures OfSize(s, k) == []
  {
    if s != [] {
      if |s| > 1 {
        assert |s[0].1| >= |s[1].1|;
      }
      DescendingTail(s);
      OfSizeNone(s[1..], k);
    }
  }

  /**
   * Inserts `x` after every group at least as large, so that among equally large groups the
   * earlier ones stay first.
   */
  function InsertBySize(x: Item, s: seq<Item>): (r: seq<Item>)
    ensures multiset(r) == multiset(s) + multiset{x}
  {
    if s == [] then [x]
    else if |s[0].1| >= |x.1| then
      assert s == [s[0]] + s[1..];
      [s[0]] + InsertBySize(x, s[1..])
    else
      [x] + s
  }

  /** Inserting into a descending sequence keeps it descending. */
  lemma {:induction false} InsertBySizeDescending(x: Item, s: seq<Item>)
    requires SizeDescending(s)
    ensures SizeDescending(InsertBySize(x, s))
  {
    if s != [] && |s[0].1| >= |x.1| {
      var r' := InsertBySize(x, s[1..]);
      InsertBySizeDescending(x, s[1..]);
      forall i | 0 <= i < |r'| ensures |s[0].1| >= |r'[i].1| {
        assert r'[i] in multiset(r');
        if r'[i] != x {
          var j :| 0 <= j < |s[1..]| && s[1..][j] == r'[i];
          assert s[j + 1] == r'[i];
        }
      }
    }
  }

  /** Inserting `x` into a descending sequence puts it after the groups of its own size. */
  lemma {:induction false} InsertBySizeStable(x: Item, s: seq<Item>, k: nat)
    requires SizeDescending(s)
    ensures OfSize(InsertBySize(x, s), k) == OfSize(s, k) + (if |x.1| == k then [x] else [])
  {
    if s == [] {
      assert InsertBySize(x, s) == [x] + [];
    } else if |s[0].1| >= |x.1| {
      DescendingTail(s);
      InsertBySizeStable(x, s[1..], k);
      InsertBehind(x, s, k);
    } else {
      InsertFront(x, s, k);
    }
  }

  /** Putting `x` behind the first group, given where it lands among the rest. */
  lemma InsertBehind(x: Item, s: seq<Item>, k: nat)
    requires s != [] && |s[0].1| >= |x.1|
    requires OfSize(InsertBySize(x, s[1..]), k) == OfSize(s[1..], k) + (if |x.1| == k then [x] else [])
    ensures OfSize(InsertBySize(x, s), k) == OfSize(s, k) + (if |x.1| == k then [x] else [])
  {
    var rest := InsertBySize(x, s[1..]);
    var h := if |s[0].1| == k then [s[0]] else [];
    OfSizeCons(s[0], rest, k);
    var tail := if |x.1| == k then [x] else [];
    assert h + (OfSize(s[1..], k) + tail) == (h + OfSize(s[1..], k)) + tail;
  }

  /** Filtering a sequence with a first element. */
  lemma OfSizeCons(y: Item, rest: seq<Item>, k: nat)
    ensures OfSize([y] + rest, k) == (if |y.1| == k then [y] else []) + OfSize(rest, k)
  {
    assert ([y] + rest)[0] == y && ([y] + rest)[1..] == rest;
  }

  /** Putting a group larger than all the others in front. */
  lemma InsertFront(x: Item, s: seq<Item>, k: nat)
    requires SizeDescending(s) && s != [] && |s[0].1| < |x.1|
    ensures OfSize(InsertBySize(x, s), k) == OfSize(s, k) + (if |x.1| == k then [x] else [])
  {
    assert InsertBySize(x, s) == [x] + s;
    if |x.1| == k {
      OfSizeNone(s, k);
    }
    assert ([x] + s)[0] == x && ([x] + s)[1..] == s;
  }

  /** A stable sort by group size, largest first. */
  function SortBySize(items: seq<Item>): (r: seq<Item>)
    ensures multiset(r) == multiset(items)
  {
    if items == [] then []
    else
      var init := items[..|items| - 1];
      assert items == init + [items[|items| - 1]];
      InsertBySize(items[|items| - 1], SortBySize(init))
  }

  /** The groups come out largest first. */
  lemma {:induction false} SortBySizeDescending(items: seq<Item>)
    ensures SizeDescending(SortBySize(items))
  {
    if items != [] {
      SortBySizeDescending(items[..|items| - 1]);
      InsertBySizeDescending(items[|items| - 1], SortBySize(items[..|items| - 1]));
    }
  }

  /** Sorting keeps the relative order of groups of the same size: the sort is stable. */
  lemma {:induction false} SortBySizeStable(items: seq<Item>, k: nat)
    ensures OfSize(SortBySize(items), k) == OfSize(items, k)
  {
    if items != [] {
      var init := items[..|items| - 1];
      var last := items[|items| - 1];
      var tail := if |last.1| == k then [last] else [];
      SortBySizeStable(init, k);
      SortBySizeDescending(init);
      InsertBySizeStable(last, SortBySize(init), k);
      assert OfSize(SortBySize(items), k) == OfSize(init, k) + tail;
      OfSizeSnoc(items, k);
    }
  }

  /** Filtering a sequence with a last element. */
  lemma OfSizeSnoc(items: seq<Item>, k: nat)
    requires items != []
    ensures var last := items[|items| - 1];
            OfSize(items, k) == OfSize(items[..|items| - 1], k) + (if |last.1| == k then [last] else [])
  {
    var init, last := items[..|items| - 1], items[|items| - 1];
    assert items == init + [last];
    OfSizeAppend(init, [last], k);
    OfSizeSingle(last, k);
  }

  lemma OfSizeSingle(x: Item, k: nat)
    ensures OfSize([x], k) == if |x.1| == k then [x] else []
  {
    assert [x][1..] == [];
  }


  // ---------------------------------------------------------------------------
  // Phase 2: the last six characters of the id, or the whole id

  /** `[v for k, v in mixamo_anims.items() if k != id]`, over the first n entries. */
  function OtherValues(m: Anims, id: string, n: nat): seq<string>
    requires m.Valid() && n <= |m.keys|
  {
    if n == 0 then []
    else OtherValues(m, id, n - 1) + (if m.keys[n - 1] != id then [ValueAt(m, n - 1)] else [])
  }

  /** A description is among the other values exactly when an entry with another id carries it. */
  lemma {:induction false} OtherValuesMembers(m: Anims, id: string, n: nat)
    requires m.Valid() && n <= |m.keys|
    ensures forall s :: s in OtherValues(m, id, n) <==> exists i :: 0 <= i < n && m.keys[i] != id && ValueAt(m, i) == s
  {
    if n > 0 {
      OtherValuesMembers(m, id, n - 1);
      forall s ensures s in OtherValues(m, id, n) <==> exists i :: 0 <= i < n && m.keys[i] != id && ValueAt(m, i) == s {
        if s in OtherValues(m, id, n - 1) {
          var i :| 0 <= i < n - 1 && m.keys[i] != id && ValueAt(m, i) == s;
          assert 0 <= i < n && m.keys[i] != id && ValueAt(m, i) == s;
        }
        if exists i :: 0 <= i < n && m.keys[i] != id && ValueAt(m, i) == s {
          var i :| 0 <= i < n && m.keys[i] != id && ValueAt(m, i) == s;
          if i < n - 1 {
            assert 0 <= i < n - 1 && m.keys[i] != id && ValueAt(m, i) == s;
          }
        }
      }
    }
  }

  /** `original_value = value.rsplit('-', 1)[0]`: the description without its last `-` part. */
  function BaseOf(value: string): string
  {
    RSplitBase(value, '-')
  }

  /** `f"{original_value}-{id[-6:]}"`. */
  function Suffix6(id: string, value: string): string
  {
    BaseOf(value) + "-" + Last(id, 6)
  }

  /** `f"{original_value}-{id}"`. */
  function SuffixId(id: string, value: string): string
  {
    BaseOf(value) + "-" + id
  }

  /**
   * The Phase 2 description of `id` grouped under `value`: the six-character suffix unless an
   * entry with another id currently carries that string, in which case the whole id.
   */
  function Renamed(m: Anims, id: string, value: string): (r: string)
    requires m.Valid()
    ensures r == Suffix6(id, value) || r == SuffixId(id, value)
    ensures r != SuffixId(id, value) ==> forall i :: 0 <= i < |m.keys| && m.keys[i] != id ==> ValueAt(m, i) != r
    ensures r == SuffixId(id, value) && |id| > 6 ==>
              exists i :: 0 <= i < |m.keys| && m.keys[i] != id && ValueAt(m, i) == Suffix6(id, value)
  {
    OtherValuesMembers(m, id, |m.keys|);
    if Suffix6(id, value) in OtherValues(m, id, |m.keys|) then SuffixId(id, value) else Suffix6(id, value)
  }

  /** When the id is longer than six characters, the two candidates differ. */
  lemma LongIdCandidatesDiffer(id: string, value: string)
    requires |id| > 6
    ensures Suffix6(id, value) != SuffixId(id, value)
  {
    assert |Suffix6(id, value)| < |SuffixId(id, value)|;
  }

  /** A description produced by Phase 1 gives back the description it was made from. */
  lemma BaseOfSuffixed(id: string, value: string)
    requires '-' !in Last(id, 3)
    ensures BaseOf(Suffix3(id, value)) == value
  {
    assert Suffix3(id, value) == value + ['-'] + Last(id, 3);
    RSplitBaseOfSuffixed(value, '-', Last(id, 3));
  }

  /**
   * For an id of at most six characters both candidates are the same string, and it is kept
   * even when another entry already carries it: Phase 2 does not guarantee uniqueness.
   */
  lemma ShortIdMayCollide()
    ensures var m := OrderedMap(["a1", "b2", "c3"], map["a1" := "Walk-b2", "b2" := "Walk-x", "c3" := "Walk-x"]);
            m.Valid() && Renamed(m, "b2", "Walk-x") == ValueAt(m, 0)
  {
    var m := OrderedMap(["a1", "b2", "c3"], map["a1" := "Walk-b2", "b2" := "Walk-x", "c3" := "Walk-x"]);
    assert BaseOf("Walk-x") == "Walk";
    assert Suffix6("b2", "Walk-x") == "Walk-b2";
  }

  /** One Phase 2 assignment: `mixamo_anims[id] = new_value`. */
  function Rename(m: Anims, id: string, value: string): (r: Anims)
    requires m.Valid()
    ensures r.Valid()
  {
    m.Put(id, Renamed(m, id, value))
  }

  /** The descriptions after the Phase 2 assignments for the targets in `ts`, in order. */
  function Renamings(m: Anims, ts: seq<(string, string)>): (r: Anims)
    requires m.Valid()
    ensures r.Valid()
  {
    if ts == [] then m
    else
      var last := ts[|ts| - 1];
      Rename(Renamings(m, ts[..|ts| - 1]), last.0, last.1)
  }

  /**
   * When every target carries its entry's description, Phase 2 adds no id, gives every
   * targeted entry one of its two candidates and leaves the other entries alone.
   */
  lemma RenamingsEffect(m: Anims, ts: seq<(string, string)>)
    requires m.Valid()
    requires forall id, v :: (id, v) in ts ==> id in m.values && m.values[id] == v
    ensures Renamings(m, ts).keys == m.keys
    ensures forall k :: k in m.values && (k, m.values[k]) in ts ==>
              Renamings(m, ts).values[k] in {Suffix6(k, m.values[k]), SuffixId(k, m.values[k])}
    ensures forall k :: k in m.values && (k, m.values[k]) !in ts ==> Renamings(m, ts).values[k] == m.values[k]
  {
    RenamingsKeys(m, ts);
    forall k | k in m.values
      ensures (k, m.values[k]) in ts ==>
                Renamings(m, ts).values[k] in {Suffix6(k, m.values[k]), SuffixId(k, m.values[k])}
      ensures (k, m.values[k]) !in ts ==> Renamings(m, ts).values[k] == m.values[k]
    {
      RenamingsAt(m, ts, k);
    }
  }

  /** Phase 2 adds no id and keeps their order. */
  lemma {:induction false} RenamingsKeys(m: Anims, ts: seq<(string, string)>)
    requires m.Valid()
    requires forall id, v :: (id, v) in ts ==> id in m.values
    ensures Renamings(m, ts).keys == m.keys
  {
    if ts != [] {
      var last := ts[|ts| - 1];
      assert ts == ts[..|ts| - 1] + [ts[|ts| - 1]];
      assert last in ts;
      RenamingsKeys(m, ts[..|ts| - 1]);
    }
  }

  /** The description Phase 2 leaves on one entry. */
  lemma {:induction false} RenamingsAt(m: Anims, ts: seq<(string, string)>, k: string)
    requires m.Valid() && k in m.values
    requires forall id, v :: (id, v) in ts ==> id in m.values && m.values[id] == v
    ensures k in Renamings(m, ts).values
    ensures (k, m.values[k]) in ts ==>
              Renamings(m, ts).values[k] in {Suffix6(k, m.values[k]), SuffixId(k, m.values[k])}
    ensures (k, m.values[k]) !in ts ==> Renamings(m, ts).values[k] == m.values[k]
  {
    if ts != [] {
      var init := ts[..|ts| - 1];
      var last := ts[|ts| - 1];
      assert ts == ts[..|ts| - 1] + [ts[|ts| - 1]];
      assert last in ts;
      RenamingsAt(m, init, k);
      if k != last.0 {
        assert (k, m.values[k]) in ts <==> (k, m.values[k]) in init;
      }
    }
  }

  /** The Phase 2 loop: each target gets its new description, and every target is counted. */
  method RenamePass(m: Anims, ts: seq<(string, string)>) returns (m': Anims, processed: nat)
    requires m.Valid()
    ensures m' == Renamings(m, ts)
    ensures processed == |ts|
  {
    m' := m;
    processed := 0;
    for t := 0 to |ts|
      invariant m' == Renamings(m, ts[..t])
      invariant processed == t
    {
      m' := RenameOne(m', ts[t].0, ts[t].1);
      processed := processed + 1;
      assert ts[..t + 1][..t] == ts[..t] && ts[..t + 1][t] == ts[t];
    }
    assert ts[..|ts|] == ts;
  }

  /** The body of the Phase 2 loop for one id. */
  method RenameOne(m: Anims, id: string, value: string) returns (m': Anims)
    requires m.Valid()
    ensures m' == Rename(m, id, value)
  {
    var originalValue := BaseOf(value);
    var newValue6 := originalValue + "-" + Last(id, 6);
    var otherValues := OtherValues(m, id, |m.keys|);
    var newValue;
    if newValue6 in otherValues {
      newValue := originalValue + "-" + id;
    } else {
      newValue := newValue6;
    }
    m' := m.Put(id, newValue);
  }

  /** Sorting the groups does not change which (id, description) pairs are targets. */
  lemma FlattenSameMembers(a: seq<Item>, b: seq<Item>)
    requires multiset(a) == multiset(b)
    ensures forall p :: p in Flatten(a) <==> p in Flatten(b)
  {
    forall x ensures x in a <==> x in b {
      assert x in a <==> x in multiset(a);
      assert x in b <==> x in multiset(b);
    }
    FlattenSubset(a, b);
    FlattenSubset(b, a);
  }

  lemma FlattenSubset(a: seq<Item>, b: seq<Item>)
    requires forall x :: x in a ==> x in b
    ensures forall p :: p in Flatten(a) ==> p in Flatten(b)
  {
    forall p | p in Flatten(a) ensures p in Flatten(b) {
      FlattenSound(a, p.0, p.1);
      var i :| 0 <= i < |a| && a[i].0 == p.1 && p.0 in a[i].1;
      assert a[i] in b;
      var j :| 0 <= j < |b| && b[j] == a[i];
      FlattenComplete(b, j, p.0);
    }
  }

  // ---------------------------------------------------------------------------
  // Saving: `dict(sorted(mixamo_anims.items()))`

  /** Each id comes before the next in string order. */
  ghost predicate StrictlySorted(ks: seq<string>)
  {
    forall i, j :: 0 <= i < j < |ks| ==> StrLt(ks[i], ks[j])
  }

  /** Inserts `k` before the first id that does not come before it. */
  function InsertKey(k: string, s: seq<string>): (r: seq<string>)
    ensures multiset(r) == multiset(s) + multiset{k}
  {
    if s == [] then [k]
    else if StrLt(s[0], k) then
      assert s == [s[0]] + s[1..];
      [s[0]] + InsertKey(k, s[1..])
    else [k] + s
  }

  /** The ids sorted in string order (an insertion sort). */
  function SortKeys(ks: seq<string>): (r: seq<string>)
    ensures multiset(r) == multiset(ks)
  {
    if ks == [] then []
    else
      assert ks == ks[..|ks| - 1] + [ks[|ks| - 1]];
      InsertKey(ks[|ks| - 1], SortKeys(ks[..|ks| - 1]))
  }

  /** Inserting an id not yet present into a sorted sequence keeps it sorted. */
  lemma {:induction false} InsertKeySorted(k: string, s: seq<string>)
    requires StrictlySorted(s) && k !in s
    ensures StrictlySorted(InsertKey(k, s))
  {
    if s != [] {
      if StrLt(s[0], k) {
        SortedTail(s, k);
        InsertKeySorted(k, s[1..]);
        InsertKeyBehind(k, s);
      } else {
        StrLtTotal(k, s[0]);
        forall j | 0 < j < |s| ensures StrLt(k, s[j]) {
          StrLtTransitive(k, s[0], s[j]);
        }
        ConsSorted(k, s);
      }
    }
  }

  /** Every id that lands behind the first one comes after it. */
  lemma InsertKeyBehind(k: string, s: seq<string>)
    requires StrictlySorted(s) && s != [] && StrLt(s[0], k)
    requires StrictlySorted(InsertKey(k, s[1..]))
    ensures StrictlySorted(InsertKey(k, s))
  {
    var r' := InsertKey(k, s[1..]);
    forall i | 0 <= i < |r'| ensures StrLt(s[0], r'[i]) {
      assert r'[i] in multiset(r');
      if r'[i] != k {
        var j :| 0 <= j < |s[1..]| && s[1..][j] == r'[i];
        assert s[j + 1] == r'[i];
      }
    }
    ConsSorted(s[0], r');
  }

  lemma SortedTail(s: seq<string>, k: string)
    requires StrictlySorted(s) && k !in s && s != []
    ensures StrictlySorted(s[1..]) && k !in s[1..]
  {
    forall i, j | 0 <= i < j < |s| - 1 ensures StrLt(s[1..][i], s[1..][j]) {
      assert s[1..][i] == s[i + 1] && s[1..][j] == s[j + 1];
    }
    forall i | 0 <= i < |s| - 1 ensures s[1..][i] != k {
      assert s[1..][i] == s[i + 1];
    }
  }

  lemma ConsSorted(x: string, s: seq<string>)
    requires StrictlySorted(s) && forall i :: 0 <= i < |s| ==> StrLt(x, s[i])
    ensures StrictlySorted([x] + s)
  {
    forall i, j | 0 <= i < j < |[x] + s| ensures StrLt(([x] + s)[i], ([x] + s)[j]) {
      if i > 0 {
        assert ([x] + s)[i] == s[i - 1];
      }
      assert ([x] + s)[j] == s[j - 1];
    }
  }

  /** Distinct ids come out strictly increasing. */
  lemma {:induction false} SortKeysSorted(ks: seq<string>)
    requires forall i, j :: 0 <= i < j < |ks| ==> ks[i] != ks[j]
    ensures StrictlySorted(SortKeys(ks))
  {
    if ks != [] {
      var init := ks[..|ks| - 1];
      var k := ks[|ks| - 1];
      SortKeysSorted(init);
      assert k !in multiset(SortKeys(init)) by {
        assert k !in init;
      }
      InsertKeySorted(k, SortKeys(init));
    }
  }

  /** The file as saved: the same entries, in string order of the id. */
  function SortedByKey(m: Anims): (r: Anims)
    requires m.Valid()
    ensures r.Valid()
  {
    SortedKeys(m);
    OrderedMap(SortKeys(m.keys), m.values)
  }

  /** The sorted ids are the same ids, distinct and strictly increasing. */
  lemma SortedKeys(m: Anims)
    requires m.Valid()
    ensures forall k :: k in SortKeys(m.keys) <==> k in m.keys
    ensures StrictlySorted(SortKeys(m.keys))
    ensures OrderedMap(SortKeys(m.keys), m.values).Valid()
  {
    var ks := SortKeys(m.keys);
    SortKeysSorted(m.keys);
    SortKeysMembers(m.keys);
    SortedDistinct(ks);
  }

  lemma SortKeysMembers(ks: seq<string>)
    ensures forall k :: k in SortKeys(ks) <==> k in ks
  {
    forall k ensures k in SortKeys(ks) <==> k in ks {
      assert k in SortKeys(ks) <==> k in multiset(SortKeys(ks));
    }
  }

  lemma SortedDistinct(ks: seq<string>)
    requires StrictlySorted(ks)
    ensures forall i, j :: 0 <= i < j < |ks| ==> ks[i] != ks[j]
  {
    forall i, j | 0 <= i < j < |ks| ensures ks[i] != ks[j] {
      StrLtIrreflexive(ks[i]);
    }
  }

  // ---------------------------------------------------------------------------
  // The final report

  /** `set(all_values)` over the first n entries. */
  function ValuesUpTo(m: Anims, n: nat): set<string>
    requires m.Valid() && n <= |m.keys|
  {
    if n == 0 then {} else ValuesUpTo(m, n - 1) + {ValueAt(m, n - 1)}
  }

  /** `len(all_values) - len(unique_values)`. */
  function DuplicateEntries(m: Anims): int
    requires m.Valid()
  {
    |m.keys| - |ValuesUpTo(m, |m.keys|)|
  }

  /** The distinct descriptions among the first n entries are exactly theirs. */
  lemma {:induction false} ValuesUpToMembers(m: Anims, n: nat)
    requires m.Valid() && n <= |m.keys|
    ensures forall v :: v in ValuesUpTo(m, n) <==> exists i :: 0 <= i < n && ValueAt(m, i) == v
  {
    if n > 0 {
      ValuesUpToMembers(m, n - 1);
      forall u ensures u in ValuesUpTo(m, n) <==> exists i :: 0 <= i < n && ValueAt(m, i) == u {
        if u in ValuesUpTo(m, n - 1) {
          var i :| 0 <= i < n - 1 && ValueAt(m, i) == u;
          assert 0 <= i < n && ValueAt(m, i) == u;
        }
        if u == ValueAt(m, n - 1) {
          assert 0 <= n - 1 < n && ValueAt(m, n - 1) == u;
        }
        if exists i :: 0 <= i < n && ValueAt(m, i) == u {
          var i :| 0 <= i < n && ValueAt(m, i) == u;
          if i < n - 1 {
            assert 0 <= i < n - 1 && ValueAt(m, i) == u;
          }
        }
      }
    }
  }

  /** No two of the first n entries share a description. */
  ghost predicate DistinctUpTo(m: Anims, n: nat)
    requires m.Valid() && n <= |m.keys|
  {
    forall i, j :: 0 <= i < j < n ==> ValueAt(m, i) != ValueAt(m, j)
  }

  /**
   * Among the first n entries there are at most n distinct descriptions, and exactly n when
   * no two of them share one.
   */
  lemma {:induction false} ValuesUpToSize(m: Anims, n: nat)
    requires m.Valid() && n <= |m.keys|
    ensures |ValuesUpTo(m, n)| <= n
    ensures |ValuesUpTo(m, n)| == n <==> DistinctUpTo(m, n)
  {
    if n > 0 {
      ValuesUpToSize(m, n - 1);
      var v := ValueAt(m, n - 1);
      if v in ValuesUpTo(m, n - 1) {
        assert ValuesUpTo(m, n) == ValuesUpTo(m, n - 1);
        OldValueRepeats(m, n);
      } else {
        assert |ValuesUpTo(m, n)| == |ValuesUpTo(m, n - 1)| + 1;
        NewValueDistinct(m, n);
      }
    }
  }

  /** When the last of n descriptions occurred before, the n are not distinct. */
  lemma OldValueRepeats(m: Anims, n: nat)
    requires m.Valid() && 0 < n <= |m.keys|
    requires ValueAt(m, n - 1) in ValuesUpTo(m, n - 1)
    ensures !DistinctUpTo(m, n)
  {
    ValuesUpToMembers(m, n - 1);
    var i :| 0 <= i < n - 1 && ValueAt(m, i) == ValueAt(m, n - 1);
    assert 0 <= i < n - 1 < n && ValueAt(m, i) == ValueAt(m, n - 1);
  }

  /** When the last of n descriptions is new, the n are distinct exactly when the first n - 1 are. */
  lemma NewValueDistinct(m: Anims, n: nat)
    requires m.Valid() && 0 < n <= |m.keys|
    requires ValueAt(m, n - 1) !in ValuesUpTo(m, n - 1)
    ensures DistinctUpTo(m, n) <==> DistinctUpTo(m, n - 1)
  {
    ValuesUpToMembers(m, n - 1);
  }

  /** The reported number of duplicate entries is never negative, and is zero exactly when every description is unique. */
  lemma DuplicateEntriesZeroIff(m: Anims)
    requires m.Valid()
    ensures DuplicateEntries(m) >= 0
    ensures DuplicateEntries(m) == 0 <==> !HasDuplicates(m)
  {
    ValuesUpToSize(m, |m.keys|);
  }

  // ---------------------------------------------------------------------------
  // The whole run

  /** What a run leaves behind. */
  datatype FixOutcome =
    | Unchanged                                          // nothing to sanitise and no duplicates: the file is not rewritten
    | SavedSanitised(file: Anims)                        // sanitised, no duplicates: saved sorted, no report
    | SavedFixed(file: Anims, duplicateEntries: int)     // duplicates handled: saved sorted, with the final count

  /** A pass counted something exactly when some description contains the character. */
  lemma {:induction false} CountWithPositive(m: Anims, c: char, n: nat)
    requires m.Valid() && n <= |m.keys|
    ensures CountWith(m, c, n) > 0 <==> exists i :: 0 <= i < n && c in ValueAt(m, i)
  {
    if n > 0 {
      CountWithPositive(m, c, n - 1);
      if CountWith(m, c, n - 1) > 0 {
        var i :| 0 <= i < n - 1 && c in ValueAt(m, i);
        assert 0 <= i < n && c in ValueAt(m, i);
      }
      if c in ValueAt(m, n - 1) {
        assert 0 <= n - 1 < n && c in ValueAt(m, n - 1);
      }
      if exists i :: 0 <= i < n && c in ValueAt(m, i) {
        var i :| 0 <= i < n && c in ValueAt(m, i);
        if i < n - 1 {
          assert 0 <= i < n - 1 && c in ValueAt(m, i);
        }
      }
    }
  }

  /** A pass over a file without the character changes nothing. */
  lemma SanitisedUnchanged(m: Anims, c: char, d: char)
    requires m.Valid() && c != d
    requires forall i :: 0 <= i < |m.keys| ==> c !in ValueAt(m, i)
    ensures Sanitised(m, c, d) == m
  {
    SanitisedRemoves(m, c, d);
    forall k | k in m.values ensures c !in m.values[k] {
      var i :| 0 <= i < |m.keys| && m.keys[i] == k;
      assert c !in ValueAt(m, i);
    }
  }

  /** The file after both sanitising passes. */
  function BothSanitised(a: Anims): (r: Anims)
    requires a.Valid()
    ensures r.Valid() && r.keys == a.keys
  {
    SanitisedRemoves(a, '/', '-');
    SanitisedRemoves(Sanitised(a, '/', '-'), '"', '\'');
    Sanitised(Sanitised(a, '/', '-'), '"', '\'')
  }

  /** `changes_made`: whether either pass rewrote a description. */
  function ChangesMade(a: Anims): bool
    requires a.Valid()
  {
    SanitisedRemoves(a, '/', '-');
    CountWith(a, '/', |a.keys|) > 0 || CountWith(Sanitised(a, '/', '-'), '"', |a.keys|) > 0
  }

  /** The items of `duplicate_values` for the file `m`. */
  function Duplicates(m: Anims): seq<Item>
    requires m.Valid()
  {
    var g := GroupsUpTo(m, |m.keys|);
    DuplicateItems(g, |g.keys|)
  }

  /** Phase 1, then Phase 2 when duplicates remain. */
  function Disambiguated(m: Anims): Anims
    requires m.Valid()
  {
    var m3 := Suffixed(m, Flatten(Duplicates(m)));
    var duplicates2 := Duplicates(m3);
    if duplicates2 != [] then Renamings(m3, Flatten(SortBySize(duplicates2))) else m3
  }

  /** The run as a function of the file's contents. */
  function Fixed(a: Anims): FixOutcome
    requires a.Valid()
  {
    var m2 := BothSanitised(a);
    if Duplicates(m2) == [] && !ChangesMade(a) then Unchanged
    else if Duplicates(m2) == [] then SavedSanitised(SortedByKey(m2))
    else
      var saved := SortedByKey(Disambiguated(m2));
      SavedFixed(saved, DuplicateEntries(saved))
  }

  /**
   * The run: two sanitising passes, grouping, an early return when there is nothing to do,
   * Phase 1, Phase 2 when duplicates remain, and the sorted save with its duplicate count.
   */
  method FixDescriptions(anims: Anims) returns (outcome: FixOutcome)
    requires anims.Valid()
    ensures outcome == Fixed(anims)
  {
    var m2, changesMade := SanitiseBoth(anims);
    var valueToIds := GroupByValue(m2);
    var duplicateValues := DuplicateItems(valueToIds, |valueToIds.keys|);
    if duplicateValues == [] && !changesMade {
      return Unchanged;
    }
    if duplicateValues == [] {
      return SavedSanitised(SortedByKey(m2));
    }
    var m4 := Disambiguate(m2, duplicateValues);
    var saved := SortedByKey(m4);
    outcome := SavedFixed(saved, DuplicateEntries(saved));
  }

  /** Both sanitising passes and `changes_made`. */
  method SanitiseBoth(anims: Anims) returns (m2: Anims, changesMade: bool)
    requires anims.Valid()
    ensures m2 == BothSanitised(anims)
    ensures changesMade == ChangesMade(anims)
  {
    SanitisedRemoves(anims, '/', '-');
    var m1, slashCount := SanitisePass(anims, '/', '-');
    var quoteCount;
    m2, quoteCount := SanitisePass(m1, '"', '\'');
    changesMade := slashCount > 0 || quoteCount > 0;
  }

  /** Phase 1 over the duplicate groups, then Phase 2 if `Counter` still finds a shared description. */
  method Disambiguate(m2: Anims, duplicateValues: seq<Item>) returns (m4: Anims)
    requires m2.Valid() && duplicateValues == Duplicates(m2)
    ensures m4 == Disambiguated(m2)
  {
    var m3 := SuffixPass(m2, Flatten(duplicateValues));
    var valueToIds2 := GroupByValue(m3);
    var duplicateValues2 := DuplicateItems(valueToIds2, |valueToIds2.keys|);
    m4 := m3;
    if duplicateValues2 != [] {
      var processedCount;
      m4, processedCount := RenamePass(m3, Flatten(SortBySize(duplicateValues2)));
    }
  }

  /**
   * Phase 2 rewrites exactly the entries whose description is shared after Phase 1, each to
   * `base-<last 6 of id>` or `base-<id>`, and leaves the others (and the ids) as they are.
   */
  lemma Phase2Effect(m3: Anims)
    requires m3.Valid()
    ensures Renamings(m3, Flatten(SortBySize(Duplicates(m3)))).keys == m3.keys
    ensures forall k :: k in m3.values && Shared(m3, m3.values[k]) ==>
              Renamings(m3, Flatten(SortBySize(Duplicates(m3)))).values[k] in
                {Suffix6(k, m3.values[k]), SuffixId(k, m3.values[k])}
    ensures forall k :: k in m3.values && !Shared(m3, m3.values[k]) ==>
              Renamings(m3, Flatten(SortBySize(Duplicates(m3)))).values[k] == m3.values[k]
  {
    var ts := Flatten(SortBySize(Duplicates(m3)));
    TargetsAreShared(m3);
    FlattenSameMembers(SortBySize(Duplicates(m3)), Duplicates(m3));
    RenamingsEffect(m3, ts);
  }

  /** Phase 2 runs only when Phase 1 left two entries with the same description. */
  lemma Phase2OnlyIfDuplicates(m: Anims)
    requires m.Valid()
    ensures !HasDuplicates(Suffixed(m, Flatten(Duplicates(m)))) ==>
              Disambiguated(m) == Suffixed(m, Flatten(Duplicates(m)))
  {
    DuplicatesFoundIff(Suffixed(m, Flatten(Duplicates(m))));
  }

  /** `changes_made` holds exactly when some description contains `/` or `"`. */
  lemma ChangesMadeIff(a: Anims)
    requires a.Valid()
    ensures ChangesMade(a) <==> exists i :: 0 <= i < |a.keys| && ('/' in ValueAt(a, i) || '"' in ValueAt(a, i))
  {
    var n := |a.keys|;
    SanitisedRemoves(a, '/', '-');
    var m1 := Sanitised(a, '/', '-');
    CountWithPositive(a, '/', n);
    CountWithPositive(m1, '"', n);
    forall i | 0 <= i < n ensures '"' in ValueAt(m1, i) <==> '"' in ValueAt(a, i) {
      ReplaceRemoves(ValueAt(a, i), '/', '-', '"');
    }
    if exists i :: 0 <= i < n && ('/' in ValueAt(a, i) || '"' in ValueAt(a, i)) {
      var i :| 0 <= i < n && ('/' in ValueAt(a, i) || '"' in ValueAt(a, i));
      if '/' !in ValueAt(a, i) {
        assert '"' in ValueAt(m1, i);
      }
    }
  }

  /**
   * The file is left untouched exactly when no description contains `/` or `"` and no two
   * entries share a description.
   */
  lemma FixedUnchangedIff(a: Anims)
    requires a.Valid()
    ensures Fixed(a) == Unchanged <==>
              (forall i :: 0 <= i < |a.keys| ==> '/' !in ValueAt(a, i) && '"' !in ValueAt(a, i)) && !HasDuplicates(a)
  {
    ChangesMadeIff(a);
    if !ChangesMade(a) {
      SanitisedUnchanged(a, '/', '-');
      SanitisedUnchanged(a, '"', '\'');
      assert BothSanitised(a) == a;
      DuplicatesFoundIff(a);
    }
  }

  /** Neither phase adds, removes or reorders an id. */
  lemma DisambiguatedKeys(m: Anims)
    requires m.Valid()
    ensures Disambiguated(m).keys == m.keys
  {
    Phase1Effect(m);
    Phase2Effect(Suffixed(m, Flatten(Duplicates(m))));
  }

  /** Whenever the file is saved, it holds the same ids as before, strictly sorted. */
  lemma FixedSavesSorted(a: Anims)
    requires a.Valid()
    ensures Fixed(a) != Unchanged ==>
              && (forall k :: k in Fixed(a).file.keys <==> k in a.keys)
              && StrictlySorted(Fixed(a).file.keys)
  {
    var m2 := BothSanitised(a);
    if Fixed(a).SavedFixed? {
      DisambiguatedKeys(m2);
      SortedKeys(Disambiguated(m2));
    } else {
      SortedKeys(m2);
    }
  }

  /**
   * A file saved after sanitising alone has no shared description; after the phases, the
   * reported duplicate count is zero exactly when every saved description is unique.
   */
  lemma FixedReport(a: Anims)
    requires a.Valid()
    ensures Fixed(a).SavedSanitised? ==> !HasDuplicates(Fixed(a).file)
    ensures Fixed(a).SavedFixed? ==>
              Fixed(a).duplicateEntries >= 0 &&
              (Fixed(a).duplicateEntries == 0 <==> !HasDuplicates(Fixed(a).file))
  {
    var m2 := BothSanitised(a);
    if Fixed(a).SavedFixed? {
      DuplicateEntriesZeroIff(SortedByKey(Disambiguated(m2)));
    } else if Fixed(a).SavedSanitised? {
      DuplicatesFoundIff(m2);
      SortedUniqueness(m2);
    }
  }

  /** Reordering the ids of a file does not change whether two entries share a description. */
  lemma SameEntriesDuplicates(m: Anims, m': Anims)
    requires m.Valid() && m'.Valid() && m'.values == m.values
    requires forall k :: k in m'.keys <==> k in m.keys
    ensures HasDuplicates(m') ==> HasDuplicates(m)
  {
    if HasDuplicates(m') {
      var i, j :| 0 <= i < j < |m'.keys| && ValueAt(m', i) == ValueAt(m', j);
      var k1, k2 := m'.keys[i], m'.keys[j];
      assert k1 in m.keys && k2 in m.keys;
      var p :| 0 <= p < |m.keys| && m.keys[p] == k1;
      var q :| 0 <= q < |m.keys| && m.keys[q] == k2;
      if p < q {
        assert ValueAt(m, p) == ValueAt(m, q);
      } else {
        assert q < p && ValueAt(m, q) == ValueAt(m, p);
      }
    }
  }

  lemma SortedUniqueness(m: Anims)
    requires m.Valid()
    ensures HasDuplicates(SortedByKey(m)) <==> HasDuplicates(m)
  {
    SortedKeys(m);
    SameEntriesDuplicates(m, SortedByKey(m));
    SameEntriesDuplicates(SortedByKey(m), m);
  }
}
