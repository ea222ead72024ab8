/** Merging the answers of several relays: `dedupeEvents`
    (api/src/nostr/client.ts). */
module RelayMerge {
  import opened Wrappers
  import opened NostrEvents

  // ---- keys ----

  /** The value of the first tag named `d`, if that tag has one. */
  function DTag(tags: seq<Tag>): Option<string> {
    if tags == [] then None
    else if |tags[0]| >= 1 && tags[0][0] == "d" then if |tags[0]| >= 2 then Some(tags[0][1]) else None
    else DTag(tags[1..])
  }

  function Key(e: Event): string {
    if DTag(e.tags).Some? && DTag(e.tags).value != "" then "d:" + DTag(e.tags).value else "id:" + e.id
  }

  // ---- the stable sort, newest first ----

  predicate Sorted(s: seq<Event>) {
    forall i, j :: 0 <= i < j < |s| ==> s[i].createdAt >= s[j].createdAt
  }

  /** Two sorted lists as one; on ties the first list goes first. */
  function Merge(s: seq<Event>, t: seq<Event>): seq<Event> {
    if s == [] then t
    else if t == [] then s
    else if s[0].createdAt >= t[0].createdAt then [s[0]] + Merge(s[1..], t)
    else [t[0]] + Merge(s, t[1..])
  }

  /** `[...events].sort((a, b) => b.created_at - a.created_at)`. */
  function Sort(events: seq<Event>): seq<Event> {
    if events == [] then [] else Merge([events[0]], Sort(events[1..]))
  }

  function AtTime(s: seq<Event>, time: nat): seq<Event> {
    if s == [] then []
    else if s[0].createdAt == time then [s[0]] + AtTime(s[1..], time)
    else AtTime(s[1..], time)
  }

  // ---- the first of each key ----

  function First(s: seq<Event>, seen: set<string>): seq<Event> {
    if s == [] then []
    else if Key(s[0]) in seen then First(s[1..], seen)
    else [s[0]] + First(s[1..], seen + {Key(s[0])})
  }

  function Dedupe(events: seq<Event>): seq<Event> {
    First(Sort(events), {})
  }

  method DedupeEvents(events: seq<Event>) returns (r: seq<Event>)
    ensures r == Dedupe(events)
  {
    var sorted := Sort(events);
    var keys: set<string> := {};   // the Map: its keys, and its values in order of insertion
    var values: seq<Event> := [];
    for i := 0 to |sorted|
      invariant values + First(sorted[i..], keys) == First(sorted, {})
    {
      var key := Key(sorted[i]);
      assert sorted[i..][0] == sorted[i] && sorted[i..][1..] == sorted[i + 1..];
      if key !in keys {
        assert values + ([sorted[i]] + First(sorted[i + 1..], keys + {key}))
          == (values + [sorted[i]]) + First(sorted[i + 1..], keys + {key});
        keys, values := keys + {key}, values + [sorted[i]];
      }
    }
    assert sorted[|sorted|..] == [] && values + [] == values;
    SortSorted(events);
    FirstSorted(sorted, {});
    SortOfSorted(values);
    r := Sort(values);
  }

  // ---- sorting ----

  lemma SortedTail(s: seq<Event>)
    requires Sorted(s) && s != []
    ensures Sorted(s[1..])
  {
  }

  lemma {:induction false} MergeMembers(s: seq<Event>, t: seq<Event>, e: Event)
    ensures e in Merge(s, t) <==> e in s || e in t
  {
    if s != [] && t != [] {
      if s[0].createdAt >= t[0].createdAt {
        MergeMembers(s[1..], t, e);
        assert s == [s[0]] + s[1..];
      } else {
        MergeMembers(s, t[1..], e);
        assert t == [t[0]] + t[1..];
      }
    }
  }

  lemma SortedCons(e: Event, s: seq<Event>)
    requires Sorted(s) && forall x :: x in s ==> x.createdAt <= e.createdAt
    ensures Sorted([e] + s)
  {
    var all := [e] + s;
    forall i, j | 0 <= i < j < |all| ensures all[i].createdAt >= all[j].createdAt {
      assert all[j] == s[j - 1] && all[j] in s;
    }
  }

  lemma HeadIsNewest(s: seq<Event>, x: Event)
    requires Sorted(s) && x in s
    ensures x.createdAt <= s[0].createdAt
  {
  }

  lemma {:induction false} MergeSorted(s: seq<Event>, t: seq<Event>)
    requires Sorted(s) && Sorted(t)
    ensures Sorted(Merge(s, t))
  {
    if s != [] && t != [] {
      if s[0].createdAt >= t[0].createdAt {
        MergeSorted(s[1..], t);
        forall x | x in Merge(s[1..], t) ensures x.createdAt <= s[0].createdAt {
          MergeMembers(s[1..], t, x);
          if x in t { HeadIsNewest(t, x); }
        }
        SortedCons(s[0], Merge(s[1..], t));
      } else {
        MergeSorted(s, t[1..]);
        forall x | x in Merge(s, t[1..]) ensures x.createdAt <= t[0].createdAt {
          MergeMembers(s, t[1..], x);
          if x in s { HeadIsNewest(s, x); }
        }
        SortedCons(t[0], Merge(s, t[1..]));
      }
    }
  }

  lemma {:induction false} SortSorted(events: seq<Event>)
    ensures Sorted(Sort(events))
  {
    if events != [] {
      SortSorted(events[1..]);
      MergeSorted([events[0]], Sort(events[1..]));
    }
  }

  lemma {:induction false} SortMembers(events: seq<Event>, e: Event)
    ensures e in Sort(events) <==> e in events
  {
    if events != [] {
      SortMembers(events[1..], e);
      MergeMembers([events[0]], Sort(events[1..]), e);
      assert events == [events[0]] + events[1..];
    }
  }

  lemma {:induction false} MergeStable(x: Event, t: seq<Event>, time: nat)
    requires Sorted(t)
    ensures AtTime(Merge([x], t), time) == if x.createdAt == time then [x] + AtTime(t, time) else AtTime(t, time)
  {
    if t == [] || x.createdAt >= t[0].createdAt {
      MergeCons(x, [], t);
      assert [x] + [] == [x] && ([x] + t)[1..] == t;
    } else {
      SortedTail(t);
      MergeStable(x, t[1..], time);
      assert ([t[0]] + Merge([x], t[1..]))[1..] == Merge([x], t[1..]);
      AtTimeMembers(t, time);
      if x.createdAt == time { assert t[0].createdAt != time; }
    }
  }

  lemma {:induction false} AtTimeMembers(s: seq<Event>, time: nat)
    ensures forall e :: e in AtTime(s, time) <==> e in s && e.createdAt == time
  {
    if s != [] {
      AtTimeMembers(s[1..], time);
      assert s == [s[0]] + s[1..];
    }
  }

  /** Newest first, and events of one time in the order given. */
  lemma {:induction false} SortIsStable(events: seq<Event>, time: nat)
    ensures Sorted(Sort(events)) && AtTime(Sort(events), time) == AtTime(events, time)
  {
    SortSorted(events);
    if events != [] {
      SortIsStable(events[1..], time);
      SortSorted(events[1..]);
      MergeStable(events[0], Sort(events[1..]), time);
    }
  }

  lemma SameHead(r: seq<Event>, q: seq<Event>)
    requires Sorted(r) && Sorted(q) && r != []
    requires forall time: nat :: AtTime(r, time) == AtTime(q, time)
    ensures q != [] && q[0] == r[0]
  {
    AtTimeMembers(r, r[0].createdAt);
    AtTimeMembers(q, r[0].createdAt);
    assert r[0] in AtTime(q, r[0].createdAt);
    AtTimeMembers(r, q[0].createdAt);
    AtTimeMembers(q, q[0].createdAt);
    assert q[0] in AtTime(r, q[0].createdAt);
    HeadIsNewest(r, q[0]);
    HeadIsNewest(q, r[0]);
    assert AtTime(r, r[0].createdAt)[0] == r[0] && AtTime(q, q[0].createdAt)[0] == q[0];
  }

  /** Those two properties leave only one list, so any stable sort returns it. */
  lemma {:induction false} StableSortIsUnique(r: seq<Event>, q: seq<Event>)
    requires Sorted(r) && Sorted(q) && forall time: nat :: AtTime(r, time) == AtTime(q, time)
    ensures r == q
  {
    if r != [] {
      SameHead(r, q);
      SortedTail(r);
      SortedTail(q);
      forall time: nat ensures AtTime(r[1..], time) == AtTime(q[1..], time) {
        assert AtTime(r, time) == AtTime(q, time);
        if r[0].createdAt == time {
          assert AtTime(r, time)[1..] == AtTime(r[1..], time) && AtTime(q, time)[1..] == AtTime(q[1..], time);
        }
      }
      StableSortIsUnique(r[1..], q[1..]);
    } else if q != [] {
      SameHead(q, r);
    }
  }

  lemma {:induction false} SortOfSorted(s: seq<Event>)
    requires Sorted(s)
    ensures Sort(s) == s
  {
    if s != [] {
      SortOfSorted(s[1..]);
      MergeCons(s[0], [], s[1..]);
      assert [s[0]] + [] == [s[0]];
    }
  }

  lemma MergeCons(e: Event, s: seq<Event>, t: seq<Event>)
    requires t == [] || e.createdAt >= t[0].createdAt
    ensures Merge([e] + s, t) == [e] + Merge(s, t)
  {
    assert ([e] + s)[1..] == s;
    if t == [] && s == [] { assert [e] + s == [e]; }
  }

  lemma ConsMerge(s: seq<Event>, e: Event, t: seq<Event>)
    requires s == [] || s[0].createdAt < e.createdAt
    ensures Merge(s, [e] + t) == [e] + Merge(s, t)
  {
    assert ([e] + t)[1..] == t;
  }

  lemma {:induction false} MergeAssociates(a: seq<Event>, b: seq<Event>, c: seq<Event>)
    ensures Merge(a, Merge(b, c)) == Merge(Merge(a, b), c)
    decreases |a| + |b| + |c|
  {
    if a != [] && b != [] && c != [] {
      var x, y, z := a[0], b[0], c[0];
      if x.createdAt >= y.createdAt && x.createdAt >= z.createdAt {
        MergeAssociates(a[1..], b, c);
        MergeCons(x, Merge(a[1..], b), c);
        MergeCons(x, a[1..], Merge(b, c));
        assert a == [x] + a[1..];
      } else if y.createdAt >= z.createdAt {
        MergeAssociates(a, b[1..], c);
        MergeCons(y, Merge(a, b[1..]), c);
        ConsMerge(a, y, Merge(b[1..], c));
      } else {
        MergeAssociates(a, b, c[1..]);
        ConsMerge(Merge(a, b), z, c[1..]);
        ConsMerge(a, z, Merge(b, c[1..]));
        assert c == [z] + c[1..];
      }
    }
  }

  lemma {:induction false} SortAppend(a: seq<Event>, b: seq<Event>)
    ensures Sort(a + b) == Merge(Sort(a), Sort(b))
  {
    if a == [] {
      assert a + b == b;
    } else {
      SortAppend(a[1..], b);
      assert (a + b)[1..] == a[1..] + b;
      MergeAssociates([a[0]], Sort(a[1..]), Sort(b));
    }
  }

  // ---- keeping the first of each key ----

  lemma {:induction false} FirstMembers(s: seq<Event>, seen: set<string>, e: Event)
    ensures e in First(s, seen) ==> e in s && Key(e) !in seen
  {
    if s != [] {
      FirstMembers(s[1..], seen, e);
      FirstMembers(s[1..], seen + {Key(s[0])}, e);
    }
  }

  lemma {:induction false} FirstSorted(s: seq<Event>, seen: set<string>)
    requires Sorted(s)
    ensures Sorted(First(s, seen))
  {
    if s != [] {
      SortedTail(s);
      FirstSorted(s[1..], seen);
      FirstSorted(s[1..], seen + {Key(s[0])});
      forall x | x in First(s[1..], seen + {Key(s[0])}) ensures x.createdAt <= s[0].createdAt {
        FirstMembers(s[1..], seen + {Key(s[0])}, x);
      }
      SortedCons(s[0], First(s[1..], seen + {Key(s[0])}));
    }
  }

  lemma FirstNotNewer(s: seq<Event>, seen: set<string>)
    requires Sorted(s) && s != [] && First(s, seen) != []
    ensures First(s, seen)[0].createdAt <= s[0].createdAt
  {
    FirstMembers(s, seen, First(s, seen)[0]);
    HeadIsNewest(s, First(s, seen)[0]);
  }

  lemma FirstCons(e: Event, s: seq<Event>, seen: set<string>)
    ensures First([e] + s, seen) == if Key(e) in seen then First(s, seen) else [e] + First(s, seen + {Key(e)})
  {
    assert ([e] + s)[1..] == s;
  }

  lemma {:induction false} FirstOfFirst(s: seq<Event>, inner: set<string>, outer: set<string>)
    requires inner <= outer
    ensures First(First(s, inner), outer) == First(s, outer)
  {
    if s != [] {
      var k := Key(s[0]);
      if k in inner {
        FirstOfFirst(s[1..], inner, outer);
      } else {
        FirstCons(s[0], First(s[1..], inner + {k}), outer);
        if k in outer {
          FirstOfFirst(s[1..], inner + {k}, outer);
        } else {
          FirstOfFirst(s[1..], inner + {k}, outer + {k});
        }
      }
    }
  }

  /** Dropping what is not first of its key from either list, before merging,
      does not change what is first after merging. */
  lemma {:induction false} FirstOfMerged(s: seq<Event>, t: seq<Event>, s1: set<string>, s2: set<string>, seen: set<string>)
    requires Sorted(s) && Sorted(t) && s1 <= seen && s2 <= seen
    ensures First(Merge(s, t), seen) == First(Merge(First(s, s1), First(t, s2)), seen)
    decreases |s| + |t|
  {
    if s == [] {
      FirstOfFirst(t, s2, seen);
    } else if t == [] {
      FirstOfFirst(s, s1, seen);
      assert Merge(First(s, s1), []) == First(s, s1);
    } else if s[0].createdAt >= t[0].createdAt {
      LeftHead(s, t, s1, s2, seen);
    } else {
      RightHead(s, t, s1, s2, seen);
    }
  }

  lemma {:induction false} LeftHead(s: seq<Event>, t: seq<Event>, s1: set<string>, s2: set<string>, seen: set<string>)
    requires Sorted(s) && Sorted(t) && s1 <= seen && s2 <= seen
    requires s != [] && t != [] && s[0].createdAt >= t[0].createdAt
    ensures First(Merge(s, t), seen) == First(Merge(First(s, s1), First(t, s2)), seen)
    decreases |s| + |t|, 0
  {
    var h, k := s[0], Key(s[0]);
    SortedTail(s);
    FirstCons(h, Merge(s[1..], t), seen);
    if k in s1 {
      FirstOfMerged(s[1..], t, s1, s2, seen);
    } else {
      var later := if k in seen then seen else seen + {k};
      FirstOfMerged(s[1..], t, s1 + {k}, s2, later);
      if First(t, s2) != [] { FirstNotNewer(t, s2); }
      MergeCons(h, First(s[1..], s1 + {k}), First(t, s2));
      FirstCons(h, Merge(First(s[1..], s1 + {k}), First(t, s2)), seen);
    }
  }

  lemma {:induction false} RightHead(s: seq<Event>, t: seq<Event>, s1: set<string>, s2: set<string>, seen: set<string>)
    requires Sorted(s) && Sorted(t) && s1 <= seen && s2 <= seen
    requires s != [] && t != [] && s[0].createdAt < t[0].createdAt
    ensures First(Merge(s, t), seen) == First(Merge(First(s, s1), First(t, s2)), seen)
    decreases |s| + |t|, 0
  {
    var h, k := t[0], Key(t[0]);
    SortedTail(t);
    FirstCons(h, Merge(s, t[1..]), seen);
    if k in s2 {
      FirstOfMerged(s, t[1..], s1, s2, seen);
    } else {
      var later := if k in seen then seen else seen + {k};
      FirstOfMerged(s, t[1..], s1, s2 + {k}, later);
      if First(s, s1) != [] { FirstNotNewer(s, s1); }
      ConsMerge(First(s, s1), h, First(t[1..], s2 + {k}));
      FirstCons(h, Merge(First(s, s1), First(t[1..], s2 + {k})), seen);
    }
  }

  // ---- which event of a key is kept ----

  function FirstWith(s: seq<Event>, k: string): Option<Event> {
    if s == [] then None else if Key(s[0]) == k then Some(s[0]) else FirstWith(s[1..], k)
  }

  lemma {:induction false} FirstWithMember(s: seq<Event>, k: string)
    ensures FirstWith(s, k).Some? ==> FirstWith(s, k).value in s && Key(FirstWith(s, k).value) == k
    ensures FirstWith(s, k).None? ==> forall e :: e in s ==> Key(e) != k
  {
    if s != [] {
      FirstWithMember(s[1..], k);
      assert s == [s[0]] + s[1..];
    }
  }

  lemma {:induction false} FirstKeeps(s: seq<Event>, seen: set<string>, e: Event)
    ensures e in First(s, seen) <==> Key(e) !in seen && FirstWith(s, Key(e)) == Some(e)
  {
    if s != [] {
      FirstKeeps(s[1..], seen, e);
      FirstKeeps(s[1..], seen + {Key(s[0])}, e);
    }
  }

  /** The newest event of a key; of several, the one listed first. */
  function Newest(events: seq<Event>, k: string): Option<Event> {
    if events == [] then None
    else
      var rest := Newest(events[1..], k);
      if Key(events[0]) == k && (rest.None? || events[0].createdAt >= rest.value.createdAt)
      then Some(events[0]) else rest
  }

  lemma {:induction false} FirstOfInserted(x: Event, t: seq<Event>, k: string)
    requires Sorted(t)
    ensures FirstWith(Merge([x], t), k)
      == if Key(x) == k && (FirstWith(t, k).None? || x.createdAt >= FirstWith(t, k).value.createdAt)
         then Some(x) else FirstWith(t, k)
  {
    if t != [] {
      FirstWithMember(t, k);
      if x.createdAt >= t[0].createdAt {
        assert Merge([x], t) == [x] + t by { MergeCons(x, [], t); assert [x] + [] == [x]; }
        assert ([x] + t)[1..] == t;
        if FirstWith(t, k).Some? { HeadIsNewest(t, FirstWith(t, k).value); }
      } else {
        SortedTail(t);
        FirstOfInserted(x, t[1..], k);
        assert ([t[0]] + Merge([x], t[1..]))[1..] == Merge([x], t[1..]);
      }
    } else {
      assert [x][1..] == [];
    }
  }

  lemma {:induction false} FirstIsNewest(events: seq<Event>, k: string)
    ensures FirstWith(Sort(events), k) == Newest(events, k)
  {
    if events != [] {
      FirstIsNewest(events[1..], k);
      SortSorted(events[1..]);
      FirstOfInserted(events[0], Sort(events[1..]), k);
    }
  }

  ghost predicate FirstNewestOfKey(events: seq<Event>, i: int) {
    && 0 <= i < |events|
    && forall j :: 0 <= j < |events| && Key(events[j]) == Key(events[i]) ==>
         events[j].createdAt <= events[i].createdAt && (j < i ==> events[j].createdAt < events[i].createdAt)
  }

  lemma {:induction false} NewestMeaning(events: seq<Event>, k: string)
    ensures match Newest(events, k)
      case None => forall j :: 0 <= j < |events| ==> Key(events[j]) != k
      case Some(e) => exists i :: FirstNewestOfKey(events, i) && events[i] == e && Key(e) == k
  {
    if events != [] {
      var rest := events[1..];
      NewestMeaning(rest, k);
      if Newest(rest, k).None? {
        assert forall j :: 0 < j < |events| ==> events[j] == rest[j - 1];
        if Key(events[0]) == k { assert FirstNewestOfKey(events, 0); }
      } else {
        var i :| FirstNewestOfKey(rest, i) && rest[i] == Newest(rest, k).value;
        assert forall j :: 0 < j < |events| ==> events[j] == rest[j - 1];
        if Newest(events, k) == Some(events[0]) && Key(events[0]) == k && events[0].createdAt >= rest[i].createdAt {
          assert FirstNewestOfKey(events, 0);
        } else {
          assert FirstNewestOfKey(events, i + 1);
        }
      }
    }
  }

  // ---- the laws ----

  /** Exactly one event of every key is kept: the newest, and of several newest
      the one listed first. */
  lemma KeepsFirstNewest(events: seq<Event>, e: Event)
    ensures e in Dedupe(events) <==> exists i :: FirstNewestOfKey(events, i) && events[i] == e
  {
    FirstKeeps(Sort(events), {}, e);
    FirstIsNewest(events, Key(e));
    NewestMeaning(events, Key(e));
  }

  lemma {:induction false} FirstDistinct(s: seq<Event>, seen: set<string>)
    ensures forall i, j :: 0 <= i < j < |First(s, seen)| ==> Key(First(s, seen)[i]) != Key(First(s, seen)[j])
  {
    if s != [] {
      var k := Key(s[0]);
      FirstDistinct(s[1..], seen);
      FirstDistinct(s[1..], seen + {k});
      forall x | x in First(s[1..], seen + {k}) ensures Key(x) != k {
        FirstMembers(s[1..], seen + {k}, x);
      }
    }
  }

  /** The answer is sorted newest first, and no key occurs twice in it. */
  lemma SortedAndDistinct(events: seq<Event>)
    ensures Sorted(Dedupe(events))
    ensures forall i, j :: 0 <= i < j < |Dedupe(events)| ==> Key(Dedupe(events)[i]) != Key(Dedupe(events)[j])
  {
    SortSorted(events);
    FirstSorted(Sort(events), {});
    FirstDistinct(Sort(events), {});
  }

  /** Merging merged answers is merging everything at once. */
  lemma Homomorphism(a: seq<Event>, b: seq<Event>)
    ensures Dedupe(Dedupe(a) + Dedupe(b)) == Dedupe(a + b)
  {
    SortAppend(a, b);
    SortAppend(Dedupe(a), Dedupe(b));
    SortSorted(a);
    SortSorted(b);
    FirstSorted(Sort(a), {});
    FirstSorted(Sort(b), {});
    SortOfSorted(Dedupe(a));
    SortOfSorted(Dedupe(b));
    FirstOfMerged(Sort(a), Sort(b), {}, {}, {});
  }

  lemma Idempotent(a: seq<Event>)
    ensures Dedupe(Dedupe(a)) == Dedupe(a)
  {
    Homomorphism(a, []);
    assert a + [] == a && Dedupe(a) + [] == Dedupe(a);
    assert Dedupe([]) == [];
  }

  // ---- versions of one d tag ----

  /** The first tag named `d` has this value. */
  ghost predicate FirstD(tags: seq<Tag>, value: string) {
    exists i :: 0 <= i < |tags| && |tags[i]| >= 2 && tags[i][0] == "d" && tags[i][1] == value
                && forall j :: 0 <= j < i ==> !(|tags[j]| >= 1 && tags[j][0] == "d")
  }

  /** The first tag named `d` has this value, and it is not empty. */
  ghost predicate IsVersionOf(e: Event, value: string) {
    value != "" && FirstD(e.tags, value)
  }

  ghost predicate HasNoVersion(e: Event) {
    forall value :: !IsVersionOf(e, value)
  }

  lemma {:induction false} DTagIs(tags: seq<Tag>, value: string)
    ensures DTag(tags) == Some(value) <==> FirstD(tags, value)
  {
    if tags != [] {
      var rest := tags[1..];
      DTagIs(rest, value);
      assert forall i :: 0 < i < |tags| ==> tags[i] == rest[i - 1];
      if FirstD(rest, value) && !(|tags[0]| >= 1 && tags[0][0] == "d") {
        var i :| 0 <= i < |rest| && |rest[i]| >= 2 && rest[i][0] == "d" && rest[i][1] == value
          && forall j :: 0 <= j < i ==> !(|rest[j]| >= 1 && rest[j][0] == "d");
        assert tags[i + 1] == rest[i];
      }
    }
  }

  /** Two events have one key exactly when they are versions of one value, or
      have no such value and share their identifier. */
  lemma SameKey(e: Event, f: Event)
    ensures Key(e) == Key(f) <==>
            (exists value :: IsVersionOf(e, value) && IsVersionOf(f, value))
            || (HasNoVersion(e) && HasNoVersion(f) && e.id == f.id)
  {
    forall value ensures (DTag(e.tags) == Some(value) <==> FirstD(e.tags, value))
                         && (DTag(f.tags) == Some(value) <==> FirstD(f.tags, value))
    {
      DTagIs(e.tags, value);
      DTagIs(f.tags, value);
    }
    KeyVersion(e);
    KeyVersion(f);
    if Key(e) == Key(f) { KeyText(e, f); }
  }

  lemma KeyVersion(e: Event)
    requires forall value :: DTag(e.tags) == Some(value) <==> FirstD(e.tags, value)
    ensures forall value :: IsVersionOf(e, value) <==> value != "" && DTag(e.tags) == Some(value)
    ensures HasNoVersion(e) <==> DTag(e.tags).None? || DTag(e.tags).value == ""
  {
    if DTag(e.tags).Some? && DTag(e.tags).value != "" { assert IsVersionOf(e, DTag(e.tags).value); }
  }

  lemma KeyText(e: Event, f: Event)
    requires Key(e) == Key(f)
    ensures DTag(e.tags).Some? && DTag(e.tags).value != "" ==> DTag(f.tags) == DTag(e.tags)
    ensures !(DTag(e.tags).Some? && DTag(e.tags).value != "") ==>
              !(DTag(f.tags).Some? && DTag(f.tags).value != "") && f.id == e.id
  {
    assert Key(e)[0] == Key(f)[0];
    if DTag(e.tags).Some? && DTag(e.tags).value != "" {
      assert Key(e)[2..] == DTag(e.tags).value && Key(f)[2..] == DTag(f.tags).value;
    } else {
      assert Key(e)[3..] == e.id && Key(f)[3..] == f.id;
    }
  }

  /** The newest of all versions of a value, and the first listed of several. */
  ghost predicate NewestVersion(events: seq<Event>, i: int, value: string) {
    0 <= i < |events| && IsVersionOf(events[i], value)
    && forall j :: 0 <= j < |events| && IsVersionOf(events[j], value) ==>
         events[j].createdAt <= events[i].createdAt && (j < i ==> events[j].createdAt < events[i].createdAt)
  }

  /** The same among the events of one identifier that are no versions. */
  ghost predicate NewestUnversioned(events: seq<Event>, i: int) {
    0 <= i < |events| && HasNoVersion(events[i])
    && forall j :: 0 <= j < |events| && HasNoVersion(events[j]) && events[j].id == events[i].id ==>
         events[j].createdAt <= events[i].createdAt && (j < i ==> events[j].createdAt < events[i].createdAt)
  }

  lemma VersionKey(e: Event, f: Event, value: string)
    requires IsVersionOf(e, value)
    ensures Key(f) == Key(e) <==> IsVersionOf(f, value)
  {
    SameKey(f, e);
    forall other ensures IsVersionOf(e, other) <==> other == value {
      DTagIs(e.tags, other);
      DTagIs(e.tags, value);
    }
  }

  /** Of all versions of a value exactly one stays, the newest and first listed;
      no other event is looked at. */
  lemma OneVersionStays(events: seq<Event>, value: string, e: Event)
    requires IsVersionOf(e, value)
    ensures e in Dedupe(events) <==> exists i :: NewestVersion(events, i, value) && events[i] == e
    ensures forall i, j :: 0 <= i < j < |Dedupe(events)| ==>
              !(IsVersionOf(Dedupe(events)[i], value) && IsVersionOf(Dedupe(events)[j], value))
  {
    forall f ensures Key(f) == Key(e) <==> IsVersionOf(f, value) { VersionKey(e, f, value); }
    forall i | 0 <= i < |events| && events[i] == e
      ensures NewestVersion(events, i, value) <==> FirstNewestOfKey(events, i) {}
    KeepsFirstNewest(events, e);
    SortedAndDistinct(events);
  }

  /** An event that is no version gives way only to others of its identifier
      that are none either. */
  lemma UnversionedStay(events: seq<Event>, e: Event)
    requires HasNoVersion(e)
    ensures e in Dedupe(events) <==> exists i :: NewestUnversioned(events, i) && events[i] == e
  {
    forall f ensures Key(f) == Key(e) <==> f.id == e.id && HasNoVersion(f) { SameKey(f, e); }
    forall i | 0 <= i < |events| && events[i] == e
      ensures NewestUnversioned(events, i) <==> FirstNewestOfKey(events, i) {}
    KeepsFirstNewest(events, e);
  }
}
