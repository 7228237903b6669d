/**
 Reminder records and the orderings the bot keeps them in.

 The bot stores each reminder as `{"datetime": <ISO string>, "message": <text>}`. The ISO string is
 written with seconds and microseconds zeroed, and it is fixed-width, so ordering the strings is the
 same as ordering the instants. The model therefore keeps the instant itself, as an integer count of
 microseconds on the local wall clock.
 */
module Reminders {

  const MicrosPerMinute: int := 60_000_000

  /** One pending reminder: when it is due and the text to send. */
  datatype Reminder = Reminder(due: int, message: string)

  /** Ascending by due time; records with equal times may appear in any order. */
  predicate Sorted(s: seq<Reminder>) {
    forall i, j :: 0 <= i < j < |s| ==> s[i].due <= s[j].due
  }

  /** The ways the bot picks records out of the list by their due time. */
  datatype Selector =
    | AtOrBefore(t: int)   // due at or before t: fired by a tick at t
    | Later(t: int)        // due strictly after t: kept by a tick at t
    | At(t: int)           // due exactly at t: one sort key

  predicate Picks(sel: Selector, r: Reminder) {
    match sel
    case AtOrBefore(t) => r.due <= t
    case Later(t) => t < r.due
    case At(t) => r.due == t
  }

  /** The records of `s` that `sel` picks, in their order in `s`. */
  function Select(s: seq<Reminder>, sel: Selector): (r: seq<Reminder>)
    ensures |r| <= |s|
  {
    if |s| == 0 then []
    else Select(s[..|s| - 1], sel) + (if Picks(sel, s[|s| - 1]) then [s[|s| - 1]] else [])
  }

  lemma {:induction false} SelectAppend(a: seq<Reminder>, b: seq<Reminder>, sel: Selector)
    ensures Select(a + b, sel) == Select(a, sel) + Select(b, sel)
    decreases |b|
  {
    if |b| == 0 {
      assert a + b == a;
    } else {
      var b' := b[..|b| - 1];
      var x := b[|b| - 1];
      assert (a + b)[..|a + b| - 1] == a + b';
      SelectAppend(a, b', sel);
    }
  }

  lemma SelectSingle(r: Reminder, sel: Selector)
    ensures Select([r], sel) == if Picks(sel, r) then [r] else []
  {
    assert [r][..0] == [];
  }

  /** A record is selected exactly when it is in the list and the selector picks it. */
  lemma {:induction false} SelectMember(s: seq<Reminder>, sel: Selector, x: Reminder)
    ensures x in Select(s, sel) <==> x in s && Picks(sel, x)
  {
    if |s| > 0 {
      var p := s[..|s| - 1];
      assert s == p + [s[|s| - 1]];
      SelectMember(p, sel, x);
    }
  }

  lemma SelectMembers(s: seq<Reminder>, sel: Selector)
    ensures forall x :: x in Select(s, sel) <==> x in s && Picks(sel, x)
  {
    forall x
      ensures x in Select(s, sel) <==> x in s && Picks(sel, x)
    {
      SelectMember(s, sel, x);
    }
  }

  /** Due-by-t and later-than-t split the list: together they hold each record exactly once. */
  lemma {:induction false} SplitConserves(s: seq<Reminder>, t: int)
    ensures multiset(Select(s, AtOrBefore(t))) + multiset(Select(s, Later(t))) == multiset(s)
  {
    if |s| > 0 {
      var p := s[..|s| - 1];
      assert s == p + [s[|s| - 1]];
      SplitConserves(p, t);
    }
  }

  /** Selecting keeps the order, so a sorted list gives a sorted selection. */
  lemma {:induction false} SelectSorted(s: seq<Reminder>, sel: Selector)
    requires Sorted(s)
    ensures Sorted(Select(s, sel))
  {
    if |s| > 0 {
      var p := s[..|s| - 1];
      var x := s[|s| - 1];
      assert s == p + [x];
      SelectSorted(p, sel);
      forall y | y in Select(p, sel)
        ensures y.due <= x.due
      {
        SelectMember(p, sel, y);
      }
    }
  }

  lemma {:induction false} SelectAll(s: seq<Reminder>, sel: Selector)
    requires forall i :: 0 <= i < |s| ==> Picks(sel, s[i])
    ensures Select(s, sel) == s
  {
    if |s| > 0 {
      SelectAll(s[..|s| - 1], sel);
      assert s == s[..|s| - 1] + [s[|s| - 1]];
    }
  }

  lemma {:induction false} SelectNone(s: seq<Reminder>, sel: Selector)
    requires forall i :: 0 <= i < |s| ==> !Picks(sel, s[i])
    ensures Select(s, sel) == []
  {
    if |s| > 0 {
      SelectNone(s[..|s| - 1], sel);
    }
  }

  /** A later-than-t selection taken twice is the one with the larger bound. */
  lemma {:induction false} LaterTwice(s: seq<Reminder>, t: int, t': int)
    requires t <= t'
    ensures Select(Select(s, Later(t)), Later(t')) == Select(s, Later(t'))
  {
    if |s| > 0 {
      var p := s[..|s| - 1];
      var x := s[|s| - 1];
      LaterTwice(p, t, t');
      SelectAppend(Select(p, Later(t)), if t < x.due then [x] else [], Later(t'));
    }
  }

  /** In a sorted list nothing is due after t once the last record is due by t. */
  lemma NothingLaterInPrefix(s: seq<Reminder>, t: int)
    requires Sorted(s) && |s| > 0 && s[|s| - 1].due <= t
    ensures Select(s[..|s| - 1], Later(t)) == []
  {
    var p := s[..|s| - 1];
    forall i | 0 <= i < |p|
      ensures !Picks(Later(t), p[i])
    {
      assert p[i] == s[i];
    }
    SelectNone(p, Later(t));
  }

  /**
   What is due by t, followed by what of the rest is due by t' >= t, is what is due by t',
   in the same order, provided the list is sorted.
   */
  lemma {:induction false} DueTwice(s: seq<Reminder>, t: int, t': int)
    requires Sorted(s) && t <= t'
    ensures Select(s, AtOrBefore(t)) + Select(Select(s, Later(t)), AtOrBefore(t'))
              == Select(s, AtOrBefore(t'))
  {
    if |s| > 0 {
      var p, x := s[..|s| - 1], s[|s| - 1];
      assert Sorted(p);
      DueTwice(p, t, t');
      if x.due <= t {
        NothingLaterInPrefix(s, t);
      }
      assert s == p + [x];
      DueTwiceStep(p, x, t, t');
    }
  }

  /** Appending one record to a list keeps the equation of `DueTwice`. */
  lemma DueTwiceStep(p: seq<Reminder>, x: Reminder, t: int, t': int)
    requires t <= t'
    requires x.due <= t ==> Select(p, Later(t)) == []
    requires Select(p, AtOrBefore(t)) + Select(Select(p, Later(t)), AtOrBefore(t'))
               == Select(p, AtOrBefore(t'))
    ensures Select(p + [x], AtOrBefore(t)) + Select(Select(p + [x], Later(t)), AtOrBefore(t'))
              == Select(p + [x], AtOrBefore(t'))
  {
    var early, later := Select(p, AtOrBefore(t)), Select(p, Later(t));
    var upTo := Select(p, AtOrBefore(t'));
    SelectAppend(p, [x], AtOrBefore(t));
    SelectAppend(p, [x], Later(t));
    SelectAppend(p, [x], AtOrBefore(t'));
    SelectSingle(x, AtOrBefore(t));
    SelectSingle(x, Later(t));
    SelectSingle(x, AtOrBefore(t'));
    var a := Select(p + [x], AtOrBefore(t));
    var b := Select(Select(p + [x], Later(t)), AtOrBefore(t'));
    var c := Select(p + [x], AtOrBefore(t'));
    if x.due <= t {
      SelectNil(AtOrBefore(t'));
      assert Select([], AtOrBefore(t')) == [];
      assert early == upTo;
      assert a == early + [x] && b == [] && c == early + [x];
      Regroup(early + [x], [], [], early + [x]);
    } else {
      var own := Select([x], AtOrBefore(t'));
      SelectAppend(later, [x], AtOrBefore(t'));
      var g := Select(later, AtOrBefore(t'));
      assert a == early && b == g + own && c == upTo + own;
      Regroup(early, g, own, upTo);
    }
  }

  // The two small facts below are stated on their own so that `DueTwiceStep` stays cheap to prove.

  lemma SelectNil(sel: Selector)
    ensures Select([], sel) == []
  {
  }

  lemma Regroup(e: seq<Reminder>, g: seq<Reminder>, own: seq<Reminder>, f: seq<Reminder>)
    requires e + g == f
    ensures e + (g + own) == f + own
  {
  }

  /**
   Puts `r` into `s` behind every record due no later than it: what appending `r` and then
   sorting stably does to an already sorted list.
   */
  function Insert(s: seq<Reminder>, r: Reminder): (t: seq<Reminder>)
    ensures |t| == |s| + 1
  {
    if |s| == 0 then [r]
    else if r.due < s[0].due then [r] + s
    else [s[0]] + Insert(s[1..], r)
  }

  /** Insertion adds `r` and loses nothing. */
  lemma {:induction false} InsertPermutes(s: seq<Reminder>, r: Reminder)
    ensures multiset(Insert(s, r)) == multiset(s) + multiset{r}
  {
    if |s| > 0 && s[0].due <= r.due {
      assert s == [s[0]] + s[1..];
      InsertPermutes(s[1..], r);
    }
  }

  /** A record due no later than everything in a sorted list can go in front of it. */
  lemma SortedCons(x: Reminder, t: seq<Reminder>)
    requires Sorted(t)
    requires forall i :: 0 <= i < |t| ==> x.due <= t[i].due
    ensures Sorted([x] + t)
  {
    var s := [x] + t;
    forall i, j | 0 <= i < j < |s|
      ensures s[i].due <= s[j].due
    {
      assert s[j] == t[j - 1];
      if i > 0 {
        assert s[i] == t[i - 1];
      }
    }
  }

  /** The head of a sorted list is due no later than anything its insertion into the tail holds. */
  lemma HeadBeforeInserted(s: seq<Reminder>, r: Reminder)
    requires Sorted(s) && |s| > 0 && s[0].due <= r.due
    ensures forall i :: 0 <= i < |Insert(s[1..], r)| ==> s[0].due <= Insert(s[1..], r)[i].due
  {
    var tail := s[1..];
    var rest := Insert(tail, r);
    InsertPermutes(tail, r);
    forall i | 0 <= i < |rest|
      ensures s[0].due <= rest[i].due
    {
      assert rest[i] in multiset(rest);
      if rest[i] != r {
        assert rest[i] in multiset(tail);
        var j :| 0 <= j < |tail| && tail[j] == rest[i];
        assert tail[j] == s[j + 1];
      }
    }
  }

  lemma {:induction false} InsertSorted(s: seq<Reminder>, r: Reminder)
    requires Sorted(s)
    ensures Sorted(Insert(s, r))
  {
    if |s| > 0 && s[0].due <= r.due {
      assert Sorted(s[1..]);
      InsertSorted(s[1..], r);
      HeadBeforeInserted(s, r);
      SortedCons(s[0], Insert(s[1..], r));
    } else if |s| > 0 {
      SortedCons(r, s);
    }
  }

  /**
   The stable sort by due time that `list.sort(key=...)` performs: each record in turn is put
   behind the records before it that are due no later.
   */
  function SortByDue(s: seq<Reminder>): (t: seq<Reminder>)
    ensures Sorted(t)
  {
    if |s| == 0 then []
    else
      var p := s[..|s| - 1];
      var sorted := SortByDue(p);
      InsertSorted(sorted, s[|s| - 1]);
      Insert(sorted, s[|s| - 1])
  }

  /** Sorting rearranges the records and nothing more. */
  lemma {:induction false} SortPermutes(s: seq<Reminder>)
    ensures multiset(SortByDue(s)) == multiset(s)
  {
    if |s| > 0 {
      var p := s[..|s| - 1];
      assert s == p + [s[|s| - 1]];
      SortPermutes(p);
      InsertPermutes(SortByDue(p), s[|s| - 1]);
    }
  }

  /** A sorted list holds no record with a key smaller than its first one. */
  lemma NoneBeforeHead(s: seq<Reminder>, k: int)
    requires Sorted(s) && |s| > 0 && k < s[0].due
    ensures Select(s, At(k)) == []
  {
    forall i | 0 <= i < |s|
      ensures !Picks(At(k), s[i])
    {
      assert s[0].due <= s[i].due;
    }
    SelectNone(s, At(k));
  }

  lemma InsertKeepsKeyFront(s: seq<Reminder>, r: Reminder, k: int)
    requires |s| > 0 && r.due < s[0].due
    requires r.due == k ==> Select(s, At(k)) == []
    ensures Select(Insert(s, r), At(k)) == Select(s, At(k)) + (if r.due == k then [r] else [])
  {
    var own := if r.due == k then [r] else [];
    var rest := Select(s, At(k));
    assert Insert(s, r) == [r] + s;
    SelectAppend([r], s, At(k));
    SelectSingle(r, At(k));
    assert Select(Insert(s, r), At(k)) == own + rest;
    if r.due == k {
      assert own + rest == own && rest + own == own;
    } else {
      assert own + rest == rest && rest + own == rest;
    }
  }

  lemma {:induction false} InsertKeepsKey(s: seq<Reminder>, r: Reminder, k: int)
    requires Sorted(s)
    ensures Select(Insert(s, r), At(k)) == Select(s, At(k)) + (if r.due == k then [r] else [])
  {
    if |s| == 0 {
      SelectSingle(r, At(k));
    } else if r.due < s[0].due {
      if r.due == k {
        NoneBeforeHead(s, k);
      }
      InsertKeepsKeyFront(s, r, k);
    } else {
      assert Sorted(s[1..]);
      InsertKeepsKey(s[1..], r, k);
      var own := if r.due == k then [r] else [];
      assert s == [s[0]] + s[1..];
      assert Insert(s, r) == [s[0]] + Insert(s[1..], r);
      SelectCons(s[0], Insert(s[1..], r), s[1..], own, At(k));
    }
  }

  /** Putting the same record in front of two lists keeps what their selections share. */
  lemma SelectCons(h: Reminder, a: seq<Reminder>, b: seq<Reminder>, extra: seq<Reminder>, sel: Selector)
    requires Select(a, sel) == Select(b, sel) + extra
    ensures Select([h] + a, sel) == Select([h] + b, sel) + extra
  {
    SelectAppend([h], a, sel);
    SelectAppend([h], b, sel);
    var head, kept := Select([h], sel), Select(b, sel);
    assert Select([h] + a, sel) == head + (kept + extra);
    assert head + (kept + extra) == (head + kept) + extra;
  }

  /** The sort is stable: the records sharing any one due time keep their relative order. */
  lemma {:induction false} SortIsStable(s: seq<Reminder>, k: int)
    ensures Select(SortByDue(s), At(k)) == Select(s, At(k))
  {
    if |s| > 0 {
      var p := s[..|s| - 1];
      SortIsStable(p, k);
      InsertKeepsKey(SortByDue(p), s[|s| - 1], k);
    }
  }

  lemma {:induction false} InsertAtEnd(s: seq<Reminder>, r: Reminder)
    requires forall i :: 0 <= i < |s| ==> s[i].due <= r.due
    ensures Insert(s, r) == s + [r]
  {
    if |s| > 0 {
      InsertAtEnd(s[1..], r);
      assert s == [s[0]] + s[1..];
    }
  }

  /** Sorting a list that is already sorted leaves it as it is. */
  lemma {:induction false} SortSortedIsIdentity(s: seq<Reminder>)
    requires Sorted(s)
    ensures SortByDue(s) == s
  {
    if |s| > 0 {
      var p := s[..|s| - 1];
      assert Sorted(p);
      SortSortedIsIdentity(p);
      InsertAtEnd(p, s[|s| - 1]);
      assert s == p + [s[|s| - 1]];
    }
  }

  /**
   Appending a record to a sorted list and sorting stably is inserting it behind every record
   due no later than it.
   */
  lemma AppendThenSortInserts(s: seq<Reminder>, r: Reminder)
    requires Sorted(s)
    ensures SortByDue(s + [r]) == Insert(s, r)
  {
    var t := s + [r];
    assert t[..|t| - 1] == s;
    SortSortedIsIdentity(s);
  }

  /** Two lists whose records with any one key come in the same order. */
  ghost predicate SameKeyOrder(a: seq<Reminder>, b: seq<Reminder>) {
    forall k :: Select(a, At(k)) == Select(b, At(k))
  }

  lemma SortedLastIsLatest(s: seq<Reminder>, x: Reminder)
    requires Sorted(s) && x in s
    ensures x.due <= s[|s| - 1].due
  {
  }

  /** A record of either list shows up in the other, under its own key. */
  lemma SharedMember(a: seq<Reminder>, b: seq<Reminder>, x: Reminder)
    requires SameKeyOrder(a, b) && x in a
    ensures x in b
  {
    SelectMember(a, At(x.due), x);
    SelectMember(b, At(x.due), x);
  }

  lemma LastRecordsAgree(a: seq<Reminder>, b: seq<Reminder>)
    requires Sorted(a) && Sorted(b) && SameKeyOrder(a, b) && |a| > 0 && |b| > 0
    ensures a[|a| - 1] == b[|b| - 1]
  {
    var pa, x := a[..|a| - 1], a[|a| - 1];
    var pb, y := b[..|b| - 1], b[|b| - 1];
    SharedMember(a, b, x);
    SharedMember(b, a, y);
    SortedLastIsLatest(a, y);
    SortedLastIsLatest(b, x);
    var sa := Select(a, At(x.due));
    assert sa == Select(pa, At(x.due)) + [x];
    assert Select(b, At(x.due)) == Select(pb, At(x.due)) + [y];
    assert x == sa[|sa| - 1] == y;
  }

  lemma PrefixesAgree(a: seq<Reminder>, b: seq<Reminder>)
    requires SameKeyOrder(a, b) && |a| > 0 && |b| > 0 && a[|a| - 1] == b[|b| - 1]
    ensures SameKeyOrder(a[..|a| - 1], b[..|b| - 1])
  {
    var pa, pb, x := a[..|a| - 1], b[..|b| - 1], a[|a| - 1];
    forall k
      ensures Select(pa, At(k)) == Select(pb, At(k))
    {
      var own := if x.due == k then [x] else [];
      var sk := Select(a, At(k));
      assert sk == Select(pa, At(k)) + own;
      assert sk == Select(pb, At(k)) + own;
      assert Select(pa, At(k)) == sk[..|sk| - |own|];
    }
  }

  /** The sort keeps the order of the records under every key at once. */
  lemma SortKeepsKeyOrder(s: seq<Reminder>)
    ensures SameKeyOrder(SortByDue(s), s)
  {
    forall k
      ensures Select(SortByDue(s), At(k)) == Select(s, At(k))
    {
      SortIsStable(s, k);
    }
  }

  /** Everything the bot's sort promises, in one place. */
  lemma SortFacts(s: seq<Reminder>)
    ensures Sorted(SortByDue(s))
    ensures multiset(SortByDue(s)) == multiset(s)
    ensures SameKeyOrder(SortByDue(s), s)
  {
    SortPermutes(s);
    SortKeepsKeyOrder(s);
  }

  /**
   Sortedness and stability pin the result down: two sorted lists that agree, key by key, on the
   order of the records sharing that key are the same list. So any correct stable sort of the
   bot's list produces exactly `SortByDue`'s answer.
   */
  lemma {:induction false} StableSortIsUnique(a: seq<Reminder>, b: seq<Reminder>)
    requires Sorted(a) && Sorted(b)
    requires SameKeyOrder(a, b)
    ensures a == b
    decreases |a| + |b|
  {
    if |a| == 0 && |b| > 0 {
      SharedMember(b, a, b[0]);
    } else if |b| == 0 && |a| > 0 {
      SharedMember(a, b, a[0]);
    } else if |a| > 0 {
      LastRecordsAgree(a, b);
      PrefixesAgree(a, b);
      var pa, pb := a[..|a| - 1], b[..|b| - 1];
      assert Sorted(pa) && Sorted(pb);
      StableSortIsUnique(pa, pb);
      assert a == pa + [a[|a| - 1]];
      assert b == pb + [b[|b| - 1]];
    }
  }
}
