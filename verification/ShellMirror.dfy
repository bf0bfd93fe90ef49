/**
 The delta stream from the context engine to the shell: what a resolve announces, and what the shell
 knows after folding the announcements.
 */
module ShellMirror {
  import opened Prelude
  import opened Prominences
  import opened UiScale

  datatype Density = FullBar | CompactBar | HiddenBar

  datatype Message =
    | BarLayoutMessage(bar: BarLayout)
    | VisibilityMessage(widget: string, visible: bool, prominence: Prominence)
    | DensityMessage(density: Density)
    | ScaleMessage(factor: Float)

  /** The last layout and committed levels the engine published. */
  datatype Snapshot = Snapshot(bar: BarLayout, levels: Levels)

  /** What the shell has been told. */
  datatype Shell = Shell(bar: Option<BarLayout>, levels: Levels)

  const BLANK := Shell(None, map[])

  function Receive(shell: Shell, m: Message): Shell {
    match m
    case BarLayoutMessage(bar) => shell.(bar := Some(bar))
    case VisibilityMessage(w, _, p) => shell.(levels := shell.levels[w := p])
    case _ => shell
  }

  function ReceiveAll(shell: Shell, ms: seq<Message>): Shell {
    if ms == [] then shell else Receive(ReceiveAll(shell, ms[..|ms| - 1]), ms[|ms| - 1])
  }

  /** What a shell that missed nothing knows. */
  function MirrorOf(last: Option<Snapshot>): Shell {
    if last.None? then BLANK else Shell(Some(last.value.bar), last.value.levels)
  }

  function KnownLevels(last: Option<Snapshot>): Levels {
    if last.None? then map[] else last.value.levels
  }

  // ---------------------------------------------------------------- what one resolve announces

  predicate BarChanged(last: Option<Snapshot>, snap: Snapshot) {
    last.None? || last.value.bar != snap.bar
  }

  predicate LevelChanged(known: Levels, levels: Levels, w: string) {
    w in levels && (w !in known || known[w] != levels[w])
  }

  /** Changed widgets at their new level; widgets that disappeared at Hidden. */
  function Announced(known: Levels, levels: Levels): Levels {
    map w | w in known.Keys + levels.Keys && (w !in levels || LevelChanged(known, levels, w)) ::
      if w in levels then levels[w] else Hidden
  }

  /** `ms` tells of each entry of `levels` once, and of nothing else. */
  ghost predicate TellsOnce(ms: seq<Message>, levels: Levels) {
    && (forall i | 0 <= i < |ms| ::
          && ms[i].VisibilityMessage? && ms[i].widget in levels
          && ms[i].prominence == levels[ms[i].widget] && ms[i].visible == (ms[i].prominence != Hidden))
    && (forall i, j | 0 <= i < j < |ms| :: ms[i].widget != ms[j].widget)
    && (forall w | w in levels :: exists i | 0 <= i < |ms| :: ms[i].widget == w)
  }

  /** The messages one resolve may send: the bar first if it changed, then the level changes in any order. */
  ghost predicate IsDelta(last: Option<Snapshot>, snap: Snapshot, ms: seq<Message>) {
    var announced := Announced(KnownLevels(last), snap.levels);
    if BarChanged(last, snap) then ms != [] && ms[0] == BarLayoutMessage(snap.bar) && TellsOnce(ms[1..], announced)
    else TellsOnce(ms, announced)
  }

  // ---------------------------------------------------------------- folding

  lemma {:induction false} ReceiveJoin(shell: Shell, a: seq<Message>, c: seq<Message>)
    ensures ReceiveAll(shell, a + c) == ReceiveAll(ReceiveAll(shell, a), c)
  {
    if c == [] {
      assert a + c == a;
    } else {
      var n := |c| - 1;
      ReceiveJoin(shell, a, c[..n]);
      assert (a + c)[..|a| + n] == a + c[..n];
    }
  }

  /** The part of `ms` that was delivered. */
  function Delivered(ms: seq<Message>, ok: seq<bool>): seq<Message>
    requires |ms| == |ok|
  {
    if ms == [] then []
    else
      var n := |ms| - 1;
      var front := Delivered(ms[..n], ok[..n]);
      if ok[n] then front + [ms[n]] else front
  }

  lemma {:induction false} DeliveredJoin(a: seq<Message>, c: seq<Message>, x: seq<bool>, y: seq<bool>)
    requires |a| == |x| && |c| == |y|
    ensures Delivered(a + c, x + y) == Delivered(a, x) + Delivered(c, y)
  {
    if c == [] {
      assert a + c == a && x + y == x;
    } else {
      var n := |c| - 1;
      DeliveredJoin(a, c[..n], x, y[..n]);
      assert (a + c)[..|a| + n] == a + c[..n] && (x + y)[..|a| + n] == x + y[..n];
    }
  }

  /** `w` is at the same level, or at none, in both. */
  predicate SameAt(l: Levels, m: Levels, w: string) {
    (w in l <==> w in m) && (w in l ==> l[w] == m[w])
  }

  lemma HearLast(shell: Shell, ms: seq<Message>, ok: seq<bool>)
    requires |ms| == |ok| && ms != []
    ensures var n := |ms| - 1;
      var before := ReceiveAll(shell, Delivered(ms[..n], ok[..n]));
      ReceiveAll(shell, Delivered(ms, ok)) == if ok[n] then Receive(before, ms[n]) else before
  {
  }

  /** `after` is `shell` once the delivered level messages are known, as far as widget `w` and the bar go. */
  ghost predicate HeardAbout(shell: Shell, after: Shell, ms: seq<Message>, ok: seq<bool>, w: string)
    requires |ms| == |ok| && forall i | 0 <= i < |ms| :: ms[i].VisibilityMessage?
  {
    && after.bar == shell.bar
    && (forall i | 0 <= i < |ms| && ok[i] && ms[i].widget == w ::
      w in after.levels && after.levels[w] == ms[i].prominence)
    && ((forall i | 0 <= i < |ms| && ok[i] :: ms[i].widget != w) ==> SameAt(after.levels, shell.levels, w))
  }

  lemma HearOneMore(shell: Shell, before: Shell, ms: seq<Message>, ok: seq<bool>, w: string)
    requires |ms| == |ok| && ms != [] && forall i | 0 <= i < |ms| :: ms[i].VisibilityMessage?
    requires forall i, j | 0 <= i < j < |ms| :: ms[i].widget != ms[j].widget
    requires HeardAbout(shell, before, ms[..|ms| - 1], ok[..|ms| - 1], w)
    ensures HeardAbout(shell, if ok[|ms| - 1] then Receive(before, ms[|ms| - 1]) else before, ms, ok, w)
  {
  }

  /** Level messages about different widgets: the shell learns the delivered ones and nothing else. */
  lemma {:induction false} HearTold(shell: Shell, ms: seq<Message>, ok: seq<bool>, w: string)
    requires |ms| == |ok| && forall i | 0 <= i < |ms| :: ms[i].VisibilityMessage?
    requires forall i, j | 0 <= i < j < |ms| :: ms[i].widget != ms[j].widget
    ensures HeardAbout(shell, ReceiveAll(shell, Delivered(ms, ok)), ms, ok, w)
  {
    if ms != [] {
      var n := |ms| - 1;
      HearTold(shell, ms[..n], ok[..n], w);
      HearOneMore(shell, ReceiveAll(shell, Delivered(ms[..n], ok[..n])), ms, ok, w);
      HearLast(shell, ms, ok);
    }
  }

  lemma {:induction false} DeliveredFirst(ms: seq<Message>, ok: seq<bool>)
    requires |ms| == |ok| && ms != []
    ensures Delivered(ms, ok) == (if ok[0] then [ms[0]] else []) + Delivered(ms[1..], ok[1..])
  {
    var n := |ms| - 1;
    if n > 0 {
      DeliveredFirst(ms[..n], ok[..n]);
      assert ms[..n][1..] == ms[1..][..n - 1] && ok[..n][1..] == ok[1..][..n - 1];
    } else {
      assert ms[..0] == [] && ms[1..] == [];
    }
  }

  lemma {:induction false} DeliveredAll(ms: seq<Message>, ok: seq<bool>)
    requires |ms| == |ok| && forall i | 0 <= i < |ok| :: ok[i]
    ensures Delivered(ms, ok) == ms
  {
    if ms != [] {
      var n := |ms| - 1;
      DeliveredAll(ms[..n], ok[..n]);
      assert ms == ms[..n] + [ms[n]];
    }
  }

  /** A lost announcement leaves the shell without it: nothing else in the delta repeats it. */
  lemma {:induction false} LostLevel(known: Levels, levels: Levels, bar: Option<BarLayout>, ms: seq<Message>,
                                     ok: seq<bool>, i: nat)
    requires TellsOnce(ms, Announced(known, levels)) && known.Keys <= levels.Keys && |ms| == |ok|
    requires i < |ok| && !ok[i]
    ensures ReceiveAll(Shell(bar, known), Delivered(ms, ok)).levels != levels
  {
    var w := ms[i].widget;
    HearTold(Shell(bar, known), ms, ok, w);
    assert LevelChanged(known, levels, w);
    forall j | 0 <= j < |ms| && ok[j] ensures ms[j].widget != w {}
  }

  lemma {:induction false} AllHeard(known: Levels, levels: Levels, bar: Option<BarLayout>, ms: seq<Message>,
                                    ok: seq<bool>)
    requires TellsOnce(ms, Announced(known, levels)) && known.Keys <= levels.Keys && |ms| == |ok|
    requires forall i | 0 <= i < |ok| :: ok[i]
    ensures ReceiveAll(Shell(bar, known), Delivered(ms, ok)).levels == levels
  {
    var after := ReceiveAll(Shell(bar, known), Delivered(ms, ok));
    forall w ensures SameAt(after.levels, levels, w) {
      HearTold(Shell(bar, known), ms, ok, w);
      if w in Announced(known, levels) {
        var i :| 0 <= i < |ms| && ms[i].widget == w;
        assert ok[i];
      } else {
        forall i | 0 <= i < |ms| && ok[i] ensures ms[i].widget != w {}
      }
    }
    assert forall w :: w in after.levels <==> w in levels by {
      forall w ensures w in after.levels <==> w in levels { assert SameAt(after.levels, levels, w); }
    }
    assert forall w | w in levels :: after.levels[w] == levels[w] by {
      forall w | w in levels ensures after.levels[w] == levels[w] { assert SameAt(after.levels, levels, w); }
    }
  }

  /** Hearing the announced level changes, some of them lost, from a shell in step with `known`. */
  lemma {:induction false} LevelsInStep(known: Levels, levels: Levels, bar: Option<BarLayout>, ms: seq<Message>,
                                        ok: seq<bool>)
    requires TellsOnce(ms, Announced(known, levels)) && known.Keys <= levels.Keys && |ms| == |ok|
    ensures var after := ReceiveAll(Shell(bar, known), Delivered(ms, ok));
      after.bar == bar && (after.levels == levels <==> forall i | 0 <= i < |ok| :: ok[i])
  {
    HearTold(Shell(bar, known), ms, ok, "");
    if i :| 0 <= i < |ok| && !ok[i] {
      LostLevel(known, levels, bar, ms, ok, i);
    } else {
      AllHeard(known, levels, bar, ms, ok);
    }
  }

  /** The first message is heard or lost; the rest is heard after it. */
  lemma HearFirst(shell: Shell, ms: seq<Message>, ok: seq<bool>)
    requires |ms| == |ok| && ms != []
    ensures ReceiveAll(shell, Delivered(ms, ok))
      == ReceiveAll(if ok[0] then Receive(shell, ms[0]) else shell, Delivered(ms[1..], ok[1..]))
  {
    DeliveredFirst(ms, ok);
    var first := if ok[0] then [ms[0]] else [];
    ReceiveJoin(shell, first, Delivered(ms[1..], ok[1..]));
    assert [ms[0]][..0] == [];
  }

  lemma AllButFirst(ok: seq<bool>)
    requires ok != []
    ensures (forall i | 0 <= i < |ok| :: ok[i]) <==> ok[0] && forall i | 0 <= i < |ok[1..]| :: ok[1..][i]
  {
    if ok[0] && forall i | 0 <= i < |ok[1..]| :: ok[1..][i] {
      forall i | 0 <= i < |ok| ensures ok[i] { if i > 0 { assert ok[1..][i - 1]; } }
    }
  }

  /** A shell in step before a resolve is in step after it exactly when every message got through:
      each announcement carries something the shell did not know, and together they say it all. */
  lemma {:induction false} InStepIffDelivered(last: Option<Snapshot>, snap: Snapshot, ms: seq<Message>, ok: seq<bool>)
    requires IsDelta(last, snap, ms) && KnownLevels(last).Keys <= snap.levels.Keys && |ms| == |ok|
    ensures ReceiveAll(MirrorOf(last), Delivered(ms, ok)) == MirrorOf(Some(snap)) <==> forall i | 0 <= i < |ok| :: ok[i]
  {
    var known, bar := KnownLevels(last), MirrorOf(last).bar;
    assert MirrorOf(last) == Shell(bar, known);
    if BarChanged(last, snap) {
      HearFirst(Shell(bar, known), ms, ok);
      AllButFirst(ok);
      LevelsInStep(known, snap.levels, if ok[0] then Some(snap.bar) else bar, ms[1..], ok[1..]);
    } else {
      LevelsInStep(known, snap.levels, bar, ms, ok);
    }
  }

  // ---------------------------------------------------------------- whole runs

  /** The snapshot published before the `n`th. */
  function LastOf(snaps: seq<Snapshot>, n: nat): Option<Snapshot>
    requires n <= |snaps|
  {
    if n == 0 then None else Some(snaps[n - 1])
  }

  /** `ms[i]` is what publishing `snaps[i]` after `snaps[i - 1]` sent. */
  ghost predicate IsStream(snaps: seq<Snapshot>, ms: seq<seq<Message>>) {
    && |snaps| == |ms|
    && forall i | 0 <= i < |snaps| :: IsDelta(LastOf(snaps, i), snaps[i], ms[i])
  }

  function Flatten(ms: seq<seq<Message>>): seq<Message> {
    if ms == [] then [] else Flatten(ms[..|ms| - 1]) + ms[|ms| - 1]
  }

  lemma StreamFront(snaps: seq<Snapshot>, ms: seq<seq<Message>>)
    requires IsStream(snaps, ms) && snaps != []
    ensures var n := |snaps| - 1;
      IsStream(snaps[..n], ms[..n]) && LastOf(snaps[..n], n) == LastOf(snaps, n)
        && IsDelta(LastOf(snaps, n), snaps[n], ms[n])
  {
  }

  lemma HearWhole(last: Option<Snapshot>, snap: Snapshot, ms: seq<Message>)
    requires IsDelta(last, snap, ms) && KnownLevels(last).Keys <= snap.levels.Keys
    ensures ReceiveAll(MirrorOf(last), ms) == MirrorOf(Some(snap))
  {
    var ok := seq(|ms|, i => true);
    DeliveredAll(ms, ok);
    InStepIffDelivered(last, snap, ms, ok);
  }

  /** Without loss, folding all messages of a run gives exactly the last bar and the last levels. */
  lemma {:induction false} StreamRebuilds(snaps: seq<Snapshot>, ms: seq<seq<Message>>)
    requires IsStream(snaps, ms)
    requires forall i | 0 < i < |snaps| :: snaps[i - 1].levels.Keys <= snaps[i].levels.Keys
    ensures ReceiveAll(BLANK, Flatten(ms)) == MirrorOf(LastOf(snaps, |snaps|))
  {
    if snaps != [] {
      var n := |snaps| - 1;
      StreamFront(snaps, ms);
      StreamRebuilds(snaps[..n], ms[..n]);
      assert KnownLevels(LastOf(snaps, n)).Keys <= snaps[n].levels.Keys;
      StreamTurn(Flatten(ms[..n]), LastOf(snaps, n), snaps[n], ms[n]);
    }
  }

  lemma StreamTurn(front: seq<Message>, last: Option<Snapshot>, snap: Snapshot, more: seq<Message>)
    requires ReceiveAll(BLANK, front) == MirrorOf(last)
    requires IsDelta(last, snap, more) && KnownLevels(last).Keys <= snap.levels.Keys
    ensures ReceiveAll(BLANK, front + more) == MirrorOf(Some(snap))
  {
    ReceiveJoin(BLANK, front, more);
    HearWhole(last, snap, more);
  }

  // ---------------------------------------------------------------- runs with losses

  /** What the last bar message says. */
  function LastBar(ms: seq<Message>): Option<BarLayout> {
    if ms == [] then None
    else
      var m := ms[|ms| - 1];
      if m.BarLayoutMessage? then Some(m.bar) else LastBar(ms[..|ms| - 1])
  }

  /** What the last message about widget `w` says. */
  function LastLevel(ms: seq<Message>, w: string): Option<Prominence> {
    if ms == [] then None
    else
      var m := ms[|ms| - 1];
      if m.VisibilityMessage? && m.widget == w then Some(m.prominence) else LastLevel(ms[..|ms| - 1], w)
  }

  function LevelIn(levels: Levels, w: string): Option<Prominence> {
    if w in levels then Some(levels[w]) else None
  }

  /** A shell knows the last word on everything and nothing else. */
  lemma {:induction false} KnowsLastWords(ms: seq<Message>, w: string)
    ensures ReceiveAll(BLANK, ms).bar == LastBar(ms)
    ensures LevelIn(ReceiveAll(BLANK, ms).levels, w) == LastLevel(ms, w)
  {
    if ms != [] { KnowsLastWords(ms[..|ms| - 1], w); }
  }

  /** On the bar and on every widget the last message heard says what the last one said does. */
  ghost predicate SameLastWords(said: seq<Message>, heard: seq<Message>) {
    LastBar(heard) == LastBar(said) && forall w :: LastLevel(heard, w) == LastLevel(said, w)
  }

  lemma SameShellIff(said: seq<Message>, heard: seq<Message>)
    ensures ReceiveAll(BLANK, heard) == ReceiveAll(BLANK, said) <==> SameLastWords(said, heard)
  {
    var a, b := ReceiveAll(BLANK, said), ReceiveAll(BLANK, heard);
    KnowsLastWords(said, "");
    KnowsLastWords(heard, "");
    forall w ensures LevelIn(b.levels, w) == LevelIn(a.levels, w) <==> LastLevel(heard, w) == LastLevel(said, w) {
      KnowsLastWords(said, w);
      KnowsLastWords(heard, w);
    }
    if SameLastWords(said, heard) {
      forall w ensures LevelIn(b.levels, w) == LevelIn(a.levels, w) {
        assert LastLevel(heard, w) == LastLevel(said, w);
      }
      SameLevelsEverywhere(a.levels, b.levels);
    }
  }

  lemma SameLevelsEverywhere(l: Levels, m: Levels)
    requires forall w :: LevelIn(m, w) == LevelIn(l, w)
    ensures l == m
  {
    forall w ensures w in l <==> w in m { assert LevelIn(m, w) == LevelIn(l, w); }
    forall w | w in l ensures l[w] == m[w] { assert LevelIn(m, w) == LevelIn(l, w); }
  }

  /** A shell that lost some of a run's messages ends in step exactly when, on the bar and on every widget,
      the last message it heard says what the last one sent does. */
  lemma {:induction false} EndsInStepIff(snaps: seq<Snapshot>, ms: seq<seq<Message>>, ok: seq<bool>)
    requires IsStream(snaps, ms) && |ok| == |Flatten(ms)|
    requires forall i | 0 < i < |snaps| :: snaps[i - 1].levels.Keys <= snaps[i].levels.Keys
    ensures ReceiveAll(BLANK, Delivered(Flatten(ms), ok)) == MirrorOf(LastOf(snaps, |snaps|))
       <==> SameLastWords(Flatten(ms), Delivered(Flatten(ms), ok))
  {
    StreamRebuilds(snaps, ms);
    SameShellIff(Flatten(ms), Delivered(Flatten(ms), ok));
  }
}
