/**
 The log viewer keeps a window onto a growing file: the newest lines first, older lines on demand, new lines by
 polling. `file` below is the file at the end of the run; at any earlier moment it was one of its prefixes.
 */
module LogWindow {
  import opened Common
  import opened LogReader

  datatype View<V> = View(lines: seq<V>, hasMore: bool, nextBefore: Option<nat>, totalLines: nat)

  function Empty<V>(): View<V> {
    View([], false, None, 0)
  }

  function Mapped<L, V>(redact: L -> V, lines: seq<L>): seq<V> {
    seq(|lines|, i requires 0 <= i < |lines| => redact(lines[i]))
  }

  /** The endpoint's answer as the viewer receives it, every line redacted. */
  function Fetch<L, V>(redact: L -> V, lines: seq<L>, before: Option<nat>, limit: nat): Chunk<V> {
    Read(Mapped(redact, lines), if before.Some? then Finite(before.value) else Absent, limit)
  }

  function Initially<V>(chunk: Chunk<V>): View<V> {
    View(chunk.lines, chunk.hasMore, Some(chunk.nextBefore), chunk.totalLines)
  }

  function Older<V>(v: View<V>, chunk: Chunk<V>): View<V> {
    View(chunk.lines + v.lines, chunk.hasMore, Some(chunk.nextBefore), chunk.totalLines)
  }

  /** A poll's answer: stale ones are ignored, a gap replaces the window, anything else is appended. */
  function Polled<V>(v: View<V>, chunk: Chunk<V>): View<V> {
    var appended := chunk.totalLines - v.totalLines;
    if appended <= 0 then v
    else if appended > |chunk.lines| then View(chunk.lines, chunk.hasMore, Some(chunk.nextBefore), chunk.totalLines)
    else v.(lines := v.lines + chunk.lines[|chunk.lines| - appended..], totalLines := chunk.totalLines)
  }

  predicate CanLoadOlder<V>(v: View<V>) {
    v.hasMore && v.nextBefore.Some?
  }

  function First<V>(v: View<V>): nat {
    if v.nextBefore.Some? then v.nextBefore.value else 0
  }

  /** The window shows the file from its first position up to `upto` and knows whether there is anything before. */
  ghost predicate Shows<L, V>(redact: L -> V, file: seq<L>, v: View<V>, upto: nat) {
    && First(v) <= upto <= |file|
    && v.lines == Mapped(redact, file)[First(v)..upto]
    && v.hasMore == (First(v) > 0)
  }

  /** The window is exact: it ends where the viewer believes the file ends. */
  ghost predicate Exact<L, V>(redact: L -> V, file: seq<L>, v: View<V>) {
    Shows(redact, file, v, v.totalLines)
  }

  lemma MappedPrefix<L, V>(redact: L -> V, file: seq<L>, n: nat)
    requires n <= |file|
    ensures Mapped(redact, file[..n]) == Mapped(redact, file)[..n]
  {
  }

  /** An answer given when the file had `n` lines shows a stretch of the final file. */
  lemma FetchShows<L, V>(redact: L -> V, file: seq<L>, n: nat, before: Option<nat>, limit: nat)
    requires n <= |file| && (before.Some? ==> before.value <= n)
    ensures var chunk, end := Fetch(redact, file[..n], before, limit), if before.Some? then before.value else n;
            && chunk.totalLines == n && chunk.end == end
            && chunk.start == chunk.nextBefore == (if end > limit then end - limit else 0)
            && chunk.lines == Mapped(redact, file)[chunk.start..end]
            && chunk.hasMore == (chunk.start > 0)
  {
    MappedPrefix(redact, file, n);
    var all := Mapped(redact, file);
    assert |all| == |file|;
    hide Mapped;
    var end := if before.Some? then before.value else n;
    SliceOfPrefix(all, n, if end > limit then end - limit else 0, end);
  }

  lemma SliceOfPrefix<V>(all: seq<V>, n: nat, start: nat, end: nat)
    requires start <= end <= n <= |all|
    ensures all[..n][start..end] == all[start..end]
  {
  }

  lemma InitialExact<L, V>(redact: L -> V, file: seq<L>, n: nat, limit: nat)
    requires n <= |file|
    ensures var v := Initially(Fetch(redact, file[..n], None, limit)); Exact(redact, file, v) && v.totalLines == n
  {
    FetchShows(redact, file, n, None, limit);
  }

  /** The last lines of a stretch are a stretch. */
  lemma Tail<V>(all: seq<V>, start: nat, from: nat, n: nat)
    requires start <= from <= n <= |all|
    ensures var lines := all[start..n]; lines[|lines| - (n - from)..] == all[from..n]
  {
  }

  lemma Joined<V>(all: seq<V>, start: nat, middle: nat, n: nat)
    requires start <= middle <= n <= |all|
    ensures all[start..middle] + all[middle..n] == all[start..n]
  {
  }

  lemma JoinedAfter<V>(front: seq<V>, all: seq<V>, start: nat, middle: nat, n: nat)
    requires start <= middle <= n <= |all|
    ensures (front + all[start..middle]) + all[middle..n] == front + all[start..n]
  {
    Joined(all, start, middle, n);
    assert forall a: seq<V>, b: seq<V> :: (front + a) + b == front + (a + b);
  }

  /** What a poll answered at length `n` does: nothing, start afresh, or append what is new. */
  lemma PolledIs<L, V>(redact: L -> V, file: seq<L>, v: View<V>, n: nat, limit: nat)
    requires v.totalLines <= |file| && n <= |file|
    ensures var v', all := Polled(v, Fetch(redact, file[..n], None, limit)), Mapped(redact, file);
            && (n <= v.totalLines ==> v' == v)
            && (n > v.totalLines + limit ==> Exact(redact, file, v') && v'.totalLines == n)
            && (v.totalLines < n <= v.totalLines + limit ==>
                  v' == v.(lines := v.lines + all[v.totalLines..n], totalLines := n))
  {
    FetchShows(redact, file, n, None, limit);
    var chunk, all := Fetch(redact, file[..n], None, limit), Mapped(redact, file);
    assert |all| == |file|;
    hide Mapped, Fetch;
    if chunk.start <= v.totalLines < n {
      Tail(all, chunk.start, v.totalLines, n);
    }
  }

  lemma PollExact<L, V>(redact: L -> V, file: seq<L>, v: View<V>, n: nat, limit: nat)
    requires Exact(redact, file, v) && n <= |file|
    ensures var v' := Polled(v, Fetch(redact, file[..n], None, limit));
            Exact(redact, file, v') && v'.totalLines == (if n > v.totalLines then n else v.totalLines)
  {
    PolledIs(redact, file, v, n, limit);
    assert |Mapped(redact, file)| == |file|;
    hide Polled, Fetch, Mapped;
    if v.totalLines < n <= v.totalLines + limit {
      Joined(Mapped(redact, file), First(v), v.totalLines, n);
    }
  }

  /** The window after the answers in `delivered`, each given when the file had that many lines. */
  function Follow<L, V>(redact: L -> V, file: seq<L>, v: View<V>, limit: nat, delivered: seq<nat>): View<V>
    requires forall i :: 0 <= i < |delivered| ==> delivered[i] <= |file|
  {
    if delivered == [] then v
    else
      Polled(Follow(redact, file, v, limit, delivered[..|delivered| - 1]),
             Fetch(redact, file[..delivered[|delivered| - 1]], None, limit))
  }

  function Greatest(start: nat, delivered: seq<nat>): nat {
    if delivered == [] then start
    else
      var before, last := Greatest(start, delivered[..|delivered| - 1]), delivered[|delivered| - 1];
      if last > before then last else before
  }

  /**
   Following an append-only file: in whatever order answers arrive, and whichever are lost, the window stays exact and
   ends at the greatest length any answer reported.
   */
  lemma {:induction false} FollowExact<L, V>(redact: L -> V, file: seq<L>, v: View<V>, limit: nat, delivered: seq<nat>)
    requires Exact(redact, file, v) && forall i :: 0 <= i < |delivered| ==> delivered[i] <= |file|
    ensures Exact(redact, file, Follow(redact, file, v, limit, delivered))
    ensures Follow(redact, file, v, limit, delivered).totalLines == Greatest(v.totalLines, delivered)
  {
    if delivered != [] {
      var before := delivered[..|delivered| - 1];
      FollowExact(redact, file, v, limit, before);
      hide Exact, Fetch, Polled;
      PollExact(redact, file, Follow(redact, file, v, limit, before), delivered[|delivered| - 1], limit);
    }
  }

  /** The viewer starts exact: after its first load, and also when that load fails and leaves it empty. */
  lemma StartsExact<L, V>(redact: L -> V, file: seq<L>, n: nat, limit: nat, delivered: seq<nat>)
    requires n <= |file| && forall i :: 0 <= i < |delivered| ==> delivered[i] <= |file|
    ensures var first := Initially(Fetch(redact, file[..n], None, limit));
            Exact(redact, file, Follow(redact, file, first, limit, delivered))
    ensures Exact(redact, file, Follow(redact, file, Empty(), limit, delivered))
  {
    InitialExact(redact, file, n, limit);
    hide Fetch, Follow;
    assert Exact(redact, file, Empty());
    FollowExact(redact, file, Initially(Fetch(redact, file[..n], None, limit)), limit, delivered);
    FollowExact(redact, file, Empty(), limit, delivered);
  }

  /** Loading older lines extends what is shown to the front; the recorded length is that of the file now. */
  lemma OlderShows<L, V>(redact: L -> V, file: seq<L>, v: View<V>, n: nat, limit: nat)
    requires Exact(redact, file, v) && CanLoadOlder(v) && v.totalLines <= n <= |file|
    ensures var v' := Older(v, Fetch(redact, file[..n], v.nextBefore, limit));
            && Shows(redact, file, v', v.totalLines) && v'.totalLines == n
            && First(v') == (if First(v) > limit then First(v) - limit else 0)
  {
    FetchShows(redact, file, n, v.nextBefore, limit);
    hide Fetch, Mapped;
    var chunk, all := Fetch(redact, file[..n], v.nextBefore, limit), Mapped(redact, file);
    assert all[chunk.start..First(v)] + all[First(v)..v.totalLines] == all[chunk.start..v.totalLines];
  }

  /** The window ends where the viewer believes the file ends, but lacks the lines from `a` up to `b`. */
  ghost predicate Lacks<L, V>(redact: L -> V, file: seq<L>, v: View<V>, a: nat, b: nat) {
    && First(v) <= a < b <= v.totalLines <= |file|
    && v.lines == Mapped(redact, file)[First(v)..a] + Mapped(redact, file)[b..v.totalLines]
    && v.hasMore == (First(v) > 0)
  }

  /** Does one of the answers report more new lines than a chunk holds? */
  predicate Jumps(start: nat, limit: nat, delivered: seq<nat>) {
    delivered != [] &&
    (|| Jumps(start, limit, delivered[..|delivered| - 1])
     || delivered[|delivered| - 1] > Greatest(start, delivered[..|delivered| - 1]) + limit)
  }

  lemma PollLacks<L, V>(redact: L -> V, file: seq<L>, v: View<V>, a: nat, b: nat, n: nat, limit: nat)
    requires Lacks(redact, file, v, a, b) && n <= |file|
    ensures var v' := Polled(v, Fetch(redact, file[..n], None, limit));
            && (if n > v.totalLines + limit then Exact(redact, file, v') else Lacks(redact, file, v', a, b))
            && v'.totalLines == (if n > v.totalLines then n else v.totalLines)
  {
    PolledIs(redact, file, v, n, limit);
    assert |Mapped(redact, file)| == |file|;
    hide Polled, Fetch, Mapped, Exact;
    if v.totalLines < n <= v.totalLines + limit {
      JoinedAfter(Mapped(redact, file)[First(v)..a], Mapped(redact, file), b, v.totalLines, n);
    }
  }

  /**
   The gap stays, the very same lines, through whatever polls follow, until one of them reports more new lines than a
   chunk holds; from then on the window is exact.
   */
  lemma {:induction false} GapStays<L, V>(redact: L -> V, file: seq<L>, v: View<V>, a: nat, b: nat, limit: nat,
                                          delivered: seq<nat>)
    requires Lacks(redact, file, v, a, b) && forall i :: 0 <= i < |delivered| ==> delivered[i] <= |file|
    ensures var v' := Follow(redact, file, v, limit, delivered);
            && (if Jumps(v.totalLines, limit, delivered) then Exact(redact, file, v')
                else Lacks(redact, file, v', a, b))
            && (Exact(redact, file, v') <==> Jumps(v.totalLines, limit, delivered))
            && v'.totalLines == Greatest(v.totalLines, delivered)
  {
    if delivered != [] {
      var before, last := delivered[..|delivered| - 1], delivered[|delivered| - 1];
      GapStays(redact, file, v, a, b, limit, before);
      var v' := Follow(redact, file, v, limit, before);
      hide Exact, Lacks, Fetch, Polled;
      if Jumps(v.totalLines, limit, before) {
        PollExact(redact, file, v', last, limit);
      } else {
        PollLacks(redact, file, v', a, b, last, limit);
      }
    }
    hide Follow;
    LacksIsNotExact(redact, file, Follow(redact, file, v, limit, delivered), a, b);
  }

  lemma LacksIsNotExact<L, V>(redact: L -> V, file: seq<L>, v: View<V>, a: nat, b: nat)
    ensures !(Exact(redact, file, v) && Lacks(redact, file, v, a, b))
  {
    if Lacks(redact, file, v, a, b) {
      assert |v.lines| == a - First(v) + (v.totalLines - b);
    }
  }

  /** Loading older lines after the file grew opens such a gap: the lines that came in between. */
  lemma GrowthOpensGap<L, V>(redact: L -> V, file: seq<L>, v: View<V>, n: nat, limit: nat)
    requires Exact(redact, file, v) && CanLoadOlder(v) && v.totalLines < n <= |file|
    ensures Lacks(redact, file, Older(v, Fetch(redact, file[..n], v.nextBefore, limit)), v.totalLines, n)
  {
    OlderShows(redact, file, v, n, limit);
    FetchShows(redact, file, n, v.nextBefore, limit);
    hide Fetch;
    assert Mapped(redact, file)[n..n] == [];
  }

  /**
   If the file grew from the length the viewer had recorded to `n` before older lines were loaded, the lines that came
   in between are lost: the window is exact afterwards if and only if the file had not grown, and exact again after the
   next poll if and only if it had not grown or that poll finds more new lines than one chunk holds.
   */
  lemma OlderAfterGrowth<L, V>(redact: L -> V, file: seq<L>, v: View<V>, n: nat, m: nat, limit: nat)
    requires Exact(redact, file, v) && CanLoadOlder(v) && v.totalLines <= n < m <= |file|
    ensures var older := Older(v, Fetch(redact, file[..n], v.nextBefore, limit));
            var polled := Polled(older, Fetch(redact, file[..m], None, limit));
            && (Exact(redact, file, older) <==> n == v.totalLines)
            && (Exact(redact, file, polled) <==> n == v.totalLines || m - n > limit)
            && (n > v.totalLines && m - n <= limit ==> Lacks(redact, file, polled, v.totalLines, n))
  {
    OlderShows(redact, file, v, n, limit);
    var older := Older(v, Fetch(redact, file[..n], v.nextBefore, limit));
    var polled := Polled(older, Fetch(redact, file[..m], None, limit));
    if n == v.totalLines {
      hide Fetch, Older, Polled;
      PollExact(redact, file, older, m, limit);
    } else {
      GrowthOpensGap(redact, file, v, n, limit);
      hide Fetch, Older, Polled, Exact, Lacks;
      LacksIsNotExact(redact, file, older, v.totalLines, n);
      PollLacks(redact, file, older, v.totalLines, n, m, limit);
      LacksIsNotExact(redact, file, polled, v.totalLines, n);
    }
  }

  /** What the viewer is answered; `n` is the length of the file at that time. */
  datatype Answer = FirstLoad(n: nat) | FirstLoadFails | Poll(n: nat) | OlderLines(n: nat)

  function Answered<L, V>(redact: L -> V, file: seq<L>, v: View<V>, limit: nat, answer: Answer): View<V>
    requires answer.FirstLoadFails? || answer.n <= |file|
  {
    match answer
    case FirstLoad(n) => Initially(Fetch(redact, file[..n], None, limit))
    case FirstLoadFails => Empty()
    case Poll(n) => Polled(v, Fetch(redact, file[..n], None, limit))
    case OlderLines(n) => if CanLoadOlder(v) then Older(v, Fetch(redact, file[..n], v.nextBefore, limit)) else v
  }

  function Session<L, V>(redact: L -> V, file: seq<L>, limit: nat, answers: seq<Answer>): View<V>
    requires forall i :: 0 <= i < |answers| && !answers[i].FirstLoadFails? ==> answers[i].n <= |file|
  {
    if answers == [] then Empty()
    else
      Answered(redact, file, Session(redact, file, limit, answers[..|answers| - 1]), limit, answers[|answers| - 1])
  }

  /** Did the file have the length the viewer had recorded whenever older lines were loaded? */
  predicate CaughtUp<L, V>(redact: L -> V, file: seq<L>, limit: nat, answers: seq<Answer>)
    requires forall i :: 0 <= i < |answers| && !answers[i].FirstLoadFails? ==> answers[i].n <= |file|
  {
    answers == [] ||
    (var before, last := answers[..|answers| - 1], answers[|answers| - 1];
     var v := Session(redact, file, limit, before);
     && CaughtUp(redact, file, limit, before)
     && (last.OlderLines? && CanLoadOlder(v) ==> last.n == v.totalLines))
  }

  /**
   A whole session: first loads and failures of them, polls in any order, and loads of older lines, in any mixture, keep
   the window exact as long as older lines are only loaded while the recorded length is that of the file.
   */
  lemma {:induction false} SessionExact<L, V>(redact: L -> V, file: seq<L>, limit: nat, answers: seq<Answer>)
    requires forall i :: 0 <= i < |answers| && !answers[i].FirstLoadFails? ==> answers[i].n <= |file|
    requires CaughtUp(redact, file, limit, answers)
    ensures Exact(redact, file, Session(redact, file, limit, answers))
  {
    if answers != [] {
      var before, last := answers[..|answers| - 1], answers[|answers| - 1];
      SessionExact(redact, file, limit, before);
      AnsweredExact(redact, file, Session(redact, file, limit, before), limit, last);
    }
  }

  /**
   How many lines a session has lost: what the file grew by before each load of older lines, since the window was last
   replaced.
   */
  function Lost<L, V>(redact: L -> V, file: seq<L>, limit: nat, answers: seq<Answer>): int
    requires forall i :: 0 <= i < |answers| && !answers[i].FirstLoadFails? ==> answers[i].n <= |file|
  {
    if answers == [] then 0
    else
      var before, last := answers[..|answers| - 1], answers[|answers| - 1];
      var v := Session(redact, file, limit, before);
      match last
      case FirstLoad(_) => 0
      case FirstLoadFails => 0
      case Poll(n) => if n > v.totalLines + limit then 0 else Lost(redact, file, limit, before)
      case OlderLines(n) =>
        Lost(redact, file, limit, before) + (if CanLoadOlder(v) then n - v.totalLines else 0)
  }

  /** The file never shrinks: older lines come from a file at least as long as any the viewer has seen. */
  predicate Growing<L, V>(redact: L -> V, file: seq<L>, limit: nat, answers: seq<Answer>)
    requires forall i :: 0 <= i < |answers| && !answers[i].FirstLoadFails? ==> answers[i].n <= |file|
  {
    answers == [] ||
    (var before, last := answers[..|answers| - 1], answers[|answers| - 1];
     var v := Session(redact, file, limit, before);
     && Growing(redact, file, limit, before)
     && (last.OlderLines? && CanLoadOlder(v) ==> v.totalLines <= last.n))
  }

  /** `lost` lines between the window's first position and its end are not shown. */
  ghost predicate Short<V>(v: View<V>, bound: nat, lost: int) {
    && lost >= 0
    && First(v) <= v.totalLines <= bound
    && |v.lines| == v.totalLines - First(v) - lost
    && v.hasMore == (First(v) > 0)
  }

  lemma ExactIsShort<L, V>(redact: L -> V, file: seq<L>, v: View<V>, lost: int)
    requires Exact(redact, file, v)
    ensures Short(v, |file|, lost) <==> lost == 0
  {
  }

  /** What one answer adds to the lines lost. */
  lemma AnsweredShort<L, V>(redact: L -> V, file: seq<L>, v: View<V>, limit: nat, answer: Answer, lost: int)
    requires Short(v, |file|, lost) && (answer.FirstLoadFails? || answer.n <= |file|)
    requires answer.OlderLines? && CanLoadOlder(v) ==> v.totalLines <= answer.n
    ensures var v' := Answered(redact, file, v, limit, answer);
            match answer
            case FirstLoad(_) => Exact(redact, file, v')
            case FirstLoadFails => Exact(redact, file, v')
            case Poll(n) =>
              if n > v.totalLines + limit then Exact(redact, file, v') else Short(v', |file|, lost)
            case OlderLines(n) =>
              Short(v', |file|, lost + (if CanLoadOlder(v) then n - v.totalLines else 0))
  {
    match answer
    case FirstLoad(n) =>
      hide Fetch;
      InitialExact(redact, file, n, limit);
    case FirstLoadFails =>
    case Poll(n) =>
      FetchShows(redact, file, n, None, limit);
      hide Fetch;
    case OlderLines(n) =>
      if CanLoadOlder(v) {
        FetchShows(redact, file, n, v.nextBefore, limit);
      }
      hide Fetch;
  }

  /**
   Exactly when, over every session of a viewer on a file that only grows: the window lacks precisely as many lines as
   the file grew by before loads of older lines since the window was last replaced; it is exact if and only if that
   number is zero.
   */
  lemma {:induction false} SessionExactIff<L, V>(redact: L -> V, file: seq<L>, limit: nat, answers: seq<Answer>)
    requires forall i :: 0 <= i < |answers| && !answers[i].FirstLoadFails? ==> answers[i].n <= |file|
    requires Growing(redact, file, limit, answers)
    ensures Short(Session(redact, file, limit, answers), |file|, Lost(redact, file, limit, answers))
    ensures Exact(redact, file, Session(redact, file, limit, answers)) <==> Lost(redact, file, limit, answers) == 0
  {
    if answers != [] {
      var before, last := answers[..|answers| - 1], answers[|answers| - 1];
      var v, lost := Session(redact, file, limit, before), Lost(redact, file, limit, before);
      SessionExactIff(redact, file, limit, before);
      var v' := Answered(redact, file, v, limit, last);
      assert Session(redact, file, limit, answers) == v';
      hide Short, Exact, Answered, Session;
      AnsweredShort(redact, file, v, limit, last, lost);
      if lost == 0 {
        AnsweredExact(redact, file, v, limit, last);
      }
      if Exact(redact, file, v') {
        ExactIsShort(redact, file, v', Lost(redact, file, limit, answers));
        ExactIsShort(redact, file, v', 0);
      }
    } else {
      assert Exact(redact, file, Session(redact, file, limit, answers));
    }
  }

  /** The one answer that spoils an exact window is older lines from a file that has grown. */
  lemma AnsweredExact<L, V>(redact: L -> V, file: seq<L>, v: View<V>, limit: nat, answer: Answer)
    requires Exact(redact, file, v) && (answer.FirstLoadFails? || answer.n <= |file|)
    requires answer.OlderLines? && CanLoadOlder(v) ==> v.totalLines <= answer.n
    ensures Exact(redact, file, Answered(redact, file, v, limit, answer))
            <==> !(answer.OlderLines? && CanLoadOlder(v) && v.totalLines < answer.n)
  {
    hide Fetch, Polled, Older, Initially;
    match answer
    case FirstLoad(n) => InitialExact(redact, file, n, limit);
    case FirstLoadFails =>
    case Poll(n) => PollExact(redact, file, v, n, limit);
    case OlderLines(n) =>
      if CanLoadOlder(v) {
        OlderShows(redact, file, v, n, limit);
        if v.totalLines < n {
          GrowthOpensGap(redact, file, v, n, limit);
          LacksIsNotExact(redact, file, Older(v, Fetch(redact, file[..n], v.nextBefore, limit)), v.totalLines, n);
        }
      }
  }

  /** The window after the first load and `k` loads of older lines, on a file that does not change. */
  function PagedBack<L, V>(redact: L -> V, file: seq<L>, limit: nat, k: nat): View<V> {
    if k == 0 then Initially(Fetch(redact, file, None, limit))
    else
      var v := PagedBack(redact, file, limit, k - 1);
      if CanLoadOlder(v) then Older(v, Fetch(redact, file, v.nextBefore, limit)) else v
  }

  /** The last `shown` lines of the file are shown. */
  ghost predicate Paged<L, V>(redact: L -> V, file: seq<L>, v: View<V>, shown: nat) {
    && Exact(redact, file, v) && v.totalLines == |file|
    && v.nextBefore == Some(if |file| > shown then |file| - shown else 0)
  }

  lemma PageStep<L, V>(redact: L -> V, file: seq<L>, limit: nat, v: View<V>, shown: nat)
    requires Paged(redact, file, v, shown)
    ensures CanLoadOlder(v) <==> shown < |file|
    ensures var v' := if CanLoadOlder(v) then Older(v, Fetch(redact, file, v.nextBefore, limit)) else v;
            Paged(redact, file, v', shown + limit)
  {
    assert file[..|file|] == file;
    hide Fetch, Mapped;
    if CanLoadOlder(v) {
      OlderShows(redact, file, v, |file|, limit);
    }
  }

  lemma {:induction false} PagesBack<L, V>(redact: L -> V, file: seq<L>, limit: nat, k: nat)
    ensures Paged(redact, file, PagedBack(redact, file, limit, k), (k + 1) * limit)
  {
    if k == 0 {
      assert file[..|file|] == file;
      InitialExact(redact, file, |file|, limit);
      FetchShows(redact, file, |file|, None, limit);
    } else {
      PagesBack(redact, file, limit, k - 1);
      assert (k + 1) * limit == k * limit + limit;
      hide Paged, Fetch, Older, CanLoadOlder;
      PageStep(redact, file, limit, PagedBack(redact, file, limit, k - 1), k * limit);
    }
  }

  /**
   Paging back through a file of fixed length: after `k` loads of older lines exactly the last `(k + 1) * limit` lines
   are shown, in order, without gap or repetition; the viewer asks for more until all of them are.
   */
  lemma PagingBack<L, V>(redact: L -> V, file: seq<L>, limit: nat, k: nat)
    ensures var v, shown := PagedBack(redact, file, limit, k), (k + 1) * limit;
            && Exact(redact, file, v) && v.totalLines == |file|
            && v.nextBefore == Some(if |file| > shown then |file| - shown else 0)
            && (CanLoadOlder(v) <==> shown < |file|)
            && (shown >= |file| ==> v.lines == Mapped(redact, file))
  {
    PagesBack(redact, file, limit, k);
    hide PagedBack;
  }

  /** The number of reads after which nothing is left to load: the file's length over the chunk size, rounded up. */
  lemma ReadsNeeded<L, V>(redact: L -> V, file: seq<L>, limit: nat, k: nat)
    requires limit > 0
    ensures CanLoadOlder(PagedBack(redact, file, limit, k)) <==> k + 1 < (|file| + limit - 1) / limit
  {
    PagingBack(redact, file, limit, k);
    hide PagedBack;
    Ceiling(|file|, limit, k + 1);
  }

  lemma Ceiling(n: nat, limit: nat, j: nat)
    requires limit > 0
    ensures j * limit < n <==> j < (n + limit - 1) / limit
  {
    var q, r := (n + limit - 1) / limit, (n + limit - 1) % limit;
    assert n + limit - 1 == q * limit + r;
    if j < q {
      MultiplyMonotone(j + 1, q, limit);
    } else {
      MultiplyMonotone(q, j, limit);
    }
  }

  lemma MultiplyMonotone(a: nat, b: nat, c: nat)
    requires a <= b
    ensures a * c <= b * c
  {
  }

  /**
   A log that does not exist yet is answered by two lines of explanation. Once it exists, the window that showed them
   is exact after a poll if and only if the poll replaces the window or the log's own first two lines read the same.
   */
  lemma PlaceholderStays<V>(redact: Line -> V, name: string, file: seq<Line>, m: nat, limit: nat)
    requires limit >= 2 && m <= |file|
    ensures var placeholder := ResolvedLines(None, name);
            var v := Polled(Initially(Fetch(redact, placeholder, None, limit)), Fetch(redact, file[..m], None, limit));
            Shows(redact, file, v, m)
            <==> m > limit + 2 || (m >= 2 && Mapped(redact, file[..2]) == Mapped(redact, placeholder))
  {
    var placeholder := ResolvedLines(None, name);
    FetchShows(redact, file, m, None, limit);
    FetchShows(redact, placeholder, 2, None, limit);
    assert placeholder[..2] == placeholder;
    var first := Initially(Fetch(redact, placeholder, None, limit));
    var chunk, all := Fetch(redact, file[..m], None, limit), Mapped(redact, file);
    assert first.lines == Mapped(redact, placeholder);
    if m >= 2 {
      MappedPrefix(redact, file, 2);
    }
    hide Fetch, Mapped;
    var v := Polled(first, chunk);
    if 2 < m <= limit + 2 {
      assert chunk.lines[|chunk.lines| - (m - 2)..] == all[2..m];
      assert all[0..m] == all[..2] + all[2..m];
      assert v.lines[..2] == first.lines;
    }
  }

  /** The viewer's state. */
  class Viewer<V> {
    var lines: seq<V>
    var hasMore: bool
    var nextBefore: Option<nat>
    var totalLines: nat

    ghost function Value(): View<V>
      reads this
    {
      View(lines, hasMore, nextBefore, totalLines)
    }

    constructor ()
      ensures Value() == Empty()
    {
      lines, hasMore, nextBefore, totalLines := [], false, None, 0;
    }

    /** `chunk` is the answer of the first load, if it succeeded. */
    method LoadInitial(chunk: Option<Chunk<V>>)
      modifies this
      ensures Value() == if chunk.Some? then Initially(chunk.value) else Empty()
    {
      if chunk.Some? {
        lines, hasMore := chunk.value.lines, chunk.value.hasMore;
        nextBefore, totalLines := Some(chunk.value.nextBefore), chunk.value.totalLines;
      } else {
        lines, hasMore, nextBefore, totalLines := [], false, None, 0;
      }
    }

    method LoadOlder(chunk: Chunk<V>)
      modifies this
      ensures Value() == if CanLoadOlder(old(Value())) then Older(old(Value()), chunk) else old(Value())
    {
      if !hasMore || nextBefore.None? {
        return;
      }
      lines := chunk.lines + lines;
      hasMore, nextBefore, totalLines := chunk.hasMore, Some(chunk.nextBefore), chunk.totalLines;
    }

    method FollowPoll(newest: Chunk<V>)
      modifies this
      ensures Value() == Polled(old(Value()), newest)
    {
      var appended := newest.totalLines - totalLines;
      if appended <= 0 {
        return;
      }
      if appended > |newest.lines| {
        lines, hasMore, nextBefore := newest.lines, newest.hasMore, Some(newest.nextBefore);
      } else {
        lines := lines + newest.lines[|newest.lines| - appended..];
      }
      totalLines := newest.totalLines;
    }
  }
}
