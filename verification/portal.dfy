/**
 The portal checker: every ten seconds it fetches the portal's page text and compares it with
 the stored snapshot. On a difference it stores the new text and announces one change. Only a
 connection-level error raises; the loop catches it and the pass is skipped. The HTTP status is
 never checked, so a rejected login or an error page comes back as page text like any other.
 */
module Portal {
  import opened Wrappers

  /** The snapshot after a pass, and whether the pass announced a change (and saved). */
  datatype Poll = Poll(snapshot: Option<string>, changed: bool)

  /**
   One pass. `stored` is the `"content"` entry of the snapshot document, absent when the file
   or the entry is missing; `fetched` is the page text, absent when the fetch failed.
   */
  function Check(stored: Option<string>, fetched: Option<string>): (p: Poll)
    ensures fetched.None? ==> p == Poll(stored, false)
    ensures fetched.Some? ==> p.snapshot == fetched && (p.changed <==> stored != fetched)
  {
    match fetched
    case None => Poll(stored, false)
    case Some(text) =>
      if stored != Some(text) then Poll(Some(text), true) else Poll(stored, false)
  }

  /** The result of several passes: the final snapshot and the number of announcements. */
  datatype Watch = Watch(snapshot: Option<string>, announced: nat)

  /** The loop over a sequence of fetch results, one per pass. */
  function Run(stored: Option<string>, fetches: seq<Option<string>>): (w: Watch)
    ensures w.announced <= |fetches|
    decreases |fetches|
  {
    if |fetches| == 0 then Watch(stored, 0)
    else
      var p := Check(stored, fetches[0]);
      var rest := Run(p.snapshot, fetches[1..]);
      Watch(rest.snapshot, rest.announced + (if p.changed then 1 else 0))
  }

  /** The fetch results of the passes that got through, in order. */
  function Successes(fetches: seq<Option<string>>): (s: seq<Option<string>>)
    ensures forall i :: 0 <= i < |s| ==> s[i].Some?
  {
    if |fetches| == 0 then []
    else (if fetches[0].Some? then [fetches[0]] else []) + Successes(fetches[1..])
  }

  /** A failed fetch changes nothing: the run is the same with the failed passes removed. */
  lemma {:induction false} FailuresAreSkipped(stored: Option<string>, fetches: seq<Option<string>>)
    ensures Run(stored, fetches) == Run(stored, Successes(fetches))
    decreases |fetches|
  {
    if |fetches| > 0 {
      FailuresAreSkipped(Check(stored, fetches[0]).snapshot, fetches[1..]);
      var tail := Successes(fetches[1..]);
      if fetches[0].Some? {
        var ok := Successes(fetches);
        assert ok == [fetches[0]] + tail;
        assert ok[0] == fetches[0] && ok[1..] == tail;
        var p := Check(stored, fetches[0]);
        var rest := Run(p.snapshot, tail);
        assert Run(stored, ok) == Watch(rest.snapshot, rest.announced + (if p.changed then 1 else 0));
      } else {
        assert Successes(fetches) == [] + tail == tail;
        assert Run(stored, fetches) == Run(stored, fetches[1..]);
      }
    }
  }

  /** The snapshot ends as the last page that was fetched, or as it was if none was. */
  lemma {:induction false} LastFetchWins(stored: Option<string>, fetches: seq<Option<string>>)
    ensures var ok := Successes(fetches);
            Run(stored, fetches).snapshot == if |ok| == 0 then stored else ok[|ok| - 1]
    decreases |fetches|
  {
    if |fetches| > 0 {
      var p := Check(stored, fetches[0]);
      LastFetchWins(p.snapshot, fetches[1..]);
      var tail := Successes(fetches[1..]);
      if fetches[0].Some? {
        assert Successes(fetches) == [fetches[0]] + tail;
      }
    }
  }

  /**
   Nothing is announced exactly when every page that was fetched equals the stored one.
   */
  lemma {:induction false} SilentIffUnchanged(stored: Option<string>, fetches: seq<Option<string>>)
    ensures Run(stored, fetches).announced == 0 <==>
              forall i :: 0 <= i < |fetches| && fetches[i].Some? ==> fetches[i] == stored
    decreases |fetches|
  {
    if |fetches| > 0 {
      var p := Check(stored, fetches[0]);
      SilentIffUnchanged(p.snapshot, fetches[1..]);
      if p.changed {
        assert fetches[0].Some? && fetches[0] != stored;
      } else {
        assert p.snapshot == stored;
        forall i | 1 <= i < |fetches|
          ensures fetches[i] == fetches[1..][i - 1]
        {
        }
      }
    }
  }

  /**
   Fetching the same page again and again announces it once, on the first pass, and only when
   it differs from what was stored; a first page on an empty store is always announced.
   */
  lemma {:induction false} SteadyPageAnnouncedOnce(stored: Option<string>, text: string, n: nat)
    requires n > 0
    ensures Run(stored, seq(n, _ => Some(text)))
              == Watch(Some(text), if stored == Some(text) then 0 else 1)
    decreases n
  {
    var fetches := seq(n, _ => Some(text));
    var p := Check(stored, Some(text));
    if n > 1 {
      assert fetches[1..] == seq(n - 1, _ => Some(text));
      SteadyPageAnnouncedOnce(p.snapshot, text, n - 1);
    }
  }
}
