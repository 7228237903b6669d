/**
 The reminder commands of the chat front end, as pure functions of the stored list.

 `/addreminder YYYY-MM-DD H M words...` and `/delreminder N` arrive with their arguments already
 split on whitespace. The reply text is not modelled: each command returns either the record it
 added or removed together with the new list, or the kind of error it replied with.
 */
module Commands {
  import opened Wrappers
  import opened Reminders

  // ---------------------------------------------------------------- ordinals

  predicate IsDigit(c: char) {
    '0' <= c <= '9'
  }

  /** `str.isdigit()` restricted to ASCII: non-empty, and nothing but digits. */
  predicate IsDigits(s: string) {
    |s| > 0 && forall i :: 0 <= i < |s| ==> IsDigit(s[i])
  }

  /** The number `int(s)` reads from a string of digits; leading zeros are allowed. */
  function DigitsValue(s: string): nat
    requires forall i :: 0 <= i < |s| ==> IsDigit(s[i])
  {
    if |s| == 0 then 0
    else
      assert IsDigit(s[|s| - 1]);
      DigitsValue(s[..|s| - 1]) * 10 + (s[|s| - 1] as int - '0' as int)
  }

  /** The ordinal as the list display writes it, in plain decimal. */
  function Decimal(n: nat): (s: string)
    ensures IsDigits(s)
    ensures DigitsValue(s) == n
  {
    var last := ['0' + (n % 10) as char];
    if n < 10 then
      assert last[..0] == [];
      last
    else
      var front := Decimal(n / 10);
      var s := front + last;
      assert s[..|s| - 1] == front;
      s
  }

  // ---------------------------------------------------------------- message text
  //
  // The stored message is the argument words joined by blanks. `Words` models how the chat
  // library splits a command into those words; it is not part of the store, and serves only to
  // show that the join loses nothing.

  /** `" ".join(words)`. */
  function Join(words: seq<string>): string {
    if |words| == 0 then ""
    else if |words| == 1 then words[0]
    else words[0] + " " + Join(words[1..])
  }

  /** A word as the chat front end delivers it: non-empty and free of blanks. */
  predicate IsWord(w: string) {
    |w| > 0 && ' ' !in w
  }

  /** The leading run of non-blank characters of `s`. */
  function FirstWord(s: string): (w: string)
    ensures |w| <= |s| && w == s[..|w|]
    ensures |s| > 0 && s[0] != ' ' ==> |w| > 0
  {
    if |s| == 0 || s[0] == ' ' then "" else [s[0]] + FirstWord(s[1..])
  }

  /** Splits `s` on blanks, dropping empty pieces: how the front end cuts a command into arguments. */
  function Words(s: string): seq<string>
    decreases |s|
  {
    if |s| == 0 then []
    else if s[0] == ' ' then Words(s[1..])
    else
      var w := FirstWord(s);
      [w] + Words(s[|w|..])
  }

  lemma {:induction false} FirstWordOf(w: string, rest: string)
    requires IsWord(w)
    requires |rest| == 0 || rest[0] == ' '
    ensures FirstWord(w + rest) == w
    decreases |w|
  {
    var s := w + rest;
    if |w| == 1 {
      assert s[1..] == rest;
    } else {
      assert s[1..] == w[1..] + rest;
      assert w[1..][0] == w[1] && w[1] in w;
      assert forall c :: c in w[1..] ==> c in w;
      FirstWordOf(w[1..], rest);
      assert w == [w[0]] + w[1..];
    }
  }

  /**
   Joining loses nothing: splitting the stored message again gives back the words it was made of.
   */
  lemma {:induction false} WordsOfJoin(words: seq<string>)
    requires forall i :: 0 <= i < |words| ==> IsWord(words[i])
    ensures Words(Join(words)) == words
    decreases |words|
  {
    if |words| == 1 {
      var w := words[0];
      FirstWordOf(w, "");
      assert w + "" == w;
      assert w[|w|..] == [];
    } else if |words| > 1 {
      var tail := words[1..];
      WordsOfJoin(tail);
      LeadingWord(words[0], Join(tail));
      assert words == [words[0]] + tail;
    }
  }

  /** A word followed by a blank splits off as the first piece. */
  lemma LeadingWord(w: string, tail: string)
    requires IsWord(w)
    ensures Words(w + " " + tail) == [w] + Words(tail)
  {
    var s := w + " " + tail;
    FirstWordOf(w, " " + tail);
    assert s == w + (" " + tail);
    assert s[|w|..] == " " + tail;
    assert (" " + tail)[1..] == tail;
  }

  // ---------------------------------------------------------------- /addreminder

  datatype AddError =
    | Usage         // fewer than five arguments
    | InvalidTime   // date, hour or minute unreadable or out of range
    | PastTime      // the time is strictly before the clock reading

  /**
   The library parsers the handler relies on: `datetime.fromisoformat` read as a day number
   (days since the clock's epoch), and `int` on a string. Either may fail.
   */
  datatype Parsers = Parsers(isoDate: string -> Option<int>, integer: string -> Option<int>)

  /**
   The due time the handler builds from its first three arguments: the parsed date with hour and
   minute replaced and seconds and microseconds set to zero. `replace` rejects an hour outside
   0..23 or a minute outside 0..59.
   */
  function DueFromArgs(args: seq<string>, p: Parsers): (due: Option<int>)
    requires |args| >= 3
    ensures due.Some? <==>
              && p.isoDate(args[0]).Some? && p.integer(args[1]).Some? && p.integer(args[2]).Some?
              && 0 <= p.integer(args[1]).value < 24 && 0 <= p.integer(args[2]).value < 60
    ensures due.Some? ==>
              && due.value % MicrosPerMinute == 0
              && DayHourMinute(due.value)
                   == (p.isoDate(args[0]).value, p.integer(args[1]).value, p.integer(args[2]).value)
  {
    match (p.isoDate(args[0]), p.integer(args[1]), p.integer(args[2]))
    case (Some(day), Some(hour), Some(minute)) =>
      if 0 <= hour < 24 && 0 <= minute < 60
      then
        ComposeDecompose(day, hour, minute);
        Some(((day * 24 + hour) * 60 + minute) * MicrosPerMinute)
      else None
    case _ => None
  }

  /** The day number, hour and minute an instant falls on, as `strftime` reads them back. */
  function DayHourMinute(micros: int): (int, int, int) {
    var minutes := micros / MicrosPerMinute;
    (minutes / 60 / 24, minutes / 60 % 24, minutes % 60)
  }

  /** Building an instant from a day, an hour and a minute can be undone, and lands on a whole minute. */
  lemma ComposeDecompose(day: int, hour: int, minute: int)
    requires 0 <= hour < 24 && 0 <= minute < 60
    ensures var m := ((day * 24 + hour) * 60 + minute) * MicrosPerMinute;
            m % MicrosPerMinute == 0 && DayHourMinute(m) == (day, hour, minute)
  {
    var hours := day * 24 + hour;
    var minutes := hours * 60 + minute;
    assert minutes * MicrosPerMinute / MicrosPerMinute == minutes;
    assert minutes / 60 == hours && minutes % 60 == minute;
    assert hours / 24 == day && hours % 24 == hour;
  }

  /**
   `/addreminder`: checks the argument count, reads the time, refuses a time strictly in the
   past, then appends the record and sorts the list stably by time. A time equal to the clock
   reading is accepted. The message is the remaining arguments joined by blanks, so a message
   needs at least two words.
   */
  function AddReminder(args: seq<string>, p: Parsers, now: int, list: seq<Reminder>)
    : (r: Result<(Reminder, seq<Reminder>), AddError>)
    ensures r == Err(Usage) <==> |args| < 5
    ensures r == Err(InvalidTime) <==> |args| >= 5 && DueFromArgs(args, p).None?
    ensures r == Err(PastTime) <==>
              |args| >= 5 && DueFromArgs(args, p).Some? && DueFromArgs(args, p).value < now
    ensures r.Ok? <==>
              |args| >= 5 && DueFromArgs(args, p).Some? && now <= DueFromArgs(args, p).value
    ensures r.Ok? ==>
              var (added, list') := r.value;
              && added == Reminder(DueFromArgs(args, p).value, Join(args[3..]))
              && added.due % MicrosPerMinute == 0
              && Sorted(list')
              && multiset(list') == multiset(list) + multiset{added}
              && SameKeyOrder(list', list + [added])
  {
    if |args| < 5 then Err(Usage)
    else
      match DueFromArgs(args, p)
      case None => Err(InvalidTime)
      case Some(due) =>
        if due < now then Err(PastTime)
        else
          var added := Reminder(due, Join(args[3..]));
          SortFacts(list + [added]);
          Ok((added, SortByDue(list + [added])))
  }

  /**
   On the list the bot keeps (always sorted), adding puts the new record right behind the
   records due no later than it, and leaves every other record where it was.
   */
  lemma AddInsertsBehindEqualTimes(args: seq<string>, p: Parsers, now: int, list: seq<Reminder>)
    requires Sorted(list)
    requires |args| >= 5 && DueFromArgs(args, p).Some? && now <= DueFromArgs(args, p).value
    ensures AddReminder(args, p, now, list).Ok?
    ensures var (added, list') := AddReminder(args, p, now, list).value;
            list' == Insert(list, added)
  {
    AppendThenSortInserts(list, AddReminder(args, p, now, list).value.0);
  }

  // ---------------------------------------------------------------- /delreminder

  datatype DelError =
    | DelUsage     // not exactly one argument, or not a digit string
    | OutOfRange   // the ordinal is 0 or beyond the end of the list

  /**
   `/delreminder N`: N is a 1-based ordinal into the list as displayed. The record at that
   position is removed and returned; the rest keep their order.
   */
  function DelReminder(args: seq<string>, list: seq<Reminder>)
    : (r: Result<(Reminder, seq<Reminder>), DelError>)
    ensures r == Err(DelUsage) <==> !(|args| == 1 && IsDigits(args[0]))
    ensures r.Ok? <==> |args| == 1 && IsDigits(args[0]) && 1 <= DigitsValue(args[0]) <= |list|
    ensures r.Ok? ==>
              var k := DigitsValue(args[0]) - 1;
              var (removed, list') := r.value;
              && removed == list[k]
              && |list'| == |list| - 1
              && (forall i :: 0 <= i < k ==> list'[i] == list[i])
              && (forall i :: k <= i < |list'| ==> list'[i] == list[i + 1])
              && multiset(list') + multiset{removed} == multiset(list)
  {
    if |args| != 1 || !IsDigits(args[0]) then Err(DelUsage)
    else
      var idx := DigitsValue(args[0]) - 1;
      if idx < 0 || idx >= |list| then Err(OutOfRange)
      else
        assert list == list[..idx] + [list[idx]] + list[idx + 1..];
        Ok((list[idx], list[..idx] + list[idx + 1..]))
  }

  /** Removing one record from a sorted list leaves it sorted. */
  lemma DelKeepsSorted(args: seq<string>, list: seq<Reminder>)
    requires Sorted(list)
    requires DelReminder(args, list).Ok?
    ensures Sorted(DelReminder(args, list).value.1)
  {
    var k := DigitsValue(args[0]) - 1;
    var list' := DelReminder(args, list).value.1;
    forall i, j | 0 <= i < j < |list'|
      ensures list'[i].due <= list'[j].due
    {
      var i' := if i < k then i else i + 1;
      var j' := if j < k then j else j + 1;
      assert list'[i] == list[i'] && list'[j] == list[j'];
    }
  }

  // ---------------------------------------------------------------- /listreminders

  /** The numbered list the bot displays: entry i carries ordinal i + 1. */
  function Listing(list: seq<Reminder>): (l: seq<(nat, Reminder)>)
    ensures |l| == |list|
    ensures forall i :: 0 <= i < |l| ==> l[i].1 == list[i] && 1 <= l[i].0 <= |list|
    ensures forall i, j :: 0 <= i < j < |l| ==> l[i].0 < l[j].0
  {
    seq(|list|, i requires 0 <= i < |list| => (i + 1, list[i]))
  }

  /**
   The ordinals shown by the list are the ones deletion accepts: sending back the number shown
   next to an entry removes exactly that entry.
   */
  lemma {:induction false} ListedOrdinalDeletesThatEntry(list: seq<Reminder>, i: int)
    requires 0 <= i < |list|
    ensures var (n, shown) := Listing(list)[i];
            DelReminder([Decimal(n)], list) == Ok((shown, list[..i] + list[i + 1..]))
  {
    var n := Listing(list)[i].0;
    assert n == i + 1;
    var r := DelReminder([Decimal(n)], list);
    assert r.Ok?;
    var list' := r.value.1;
    assert list' == list[..i] + list[i + 1..];
  }
}
