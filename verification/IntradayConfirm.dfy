/** The intraday confirmation gate: several independent checks must agree before a name is acted on. */
module IntradayConfirm {
  import opened Prelude

  datatype Config = Config(
    persistence: int, sigmaMult: real, volumeMult: real, requireDailyAgreement: bool, cooldownMinutes: real)

  /** One check of one name; now is in seconds. */
  datatype Check = Check(symbol: string, signal: real, recentVol: real, volumeRatio: real, dailySignal: real, now: int)

  /** A check and what the gate answered. */
  datatype Event = Event(check: Check, answer: int)

  /** What the gate remembers of a name. */
  datatype NameState = NameState(directions: seq<int>, lastAction: Option<int>)

  // ------------------------------------------------------- what the answer should be

  /** How many agreeing checks in a row are needed. */
  function Needed(config: Config): nat {
    if config.persistence > 1 then config.persistence else 1
  }

  /** The direction of a move that exceeds the name's own volatility, zero for one that does not. */
  function Direction(config: Config, c: Check): int {
    var threshold := Times(config.sigmaMult, Max(c.recentVol, 0.0));
    if threshold > 0.0 && Abs(c.signal) >= threshold then (if c.signal > 0.0 then 1 else -1) else 0
  }

  function Directions(config: Config, own: seq<Event>): (ds: seq<int>)
    ensures |ds| == |own|
  {
    seq(|own|, i requires 0 <= i < |own| => Direction(config, own[i].check))
  }

  /** The time of the last non-zero answer. */
  function LastAction(own: seq<Event>): Option<int> {
    if own == [] then None
    else if own[|own| - 1].answer != 0 then Some(own[|own| - 1].check.now)
    else LastAction(own[..|own| - 1])
  }

  /** The last n checks all point in direction d. */
  ghost predicate Streak(ds: seq<int>, n: nat, d: int) {
    |ds| >= n && forall i :: |ds| - n <= i < |ds| ==> ds[i] == d
  }

  predicate Agrees(config: Config, d: int, daily: real) {
    !config.requireDailyAgreement || daily == 0.0 || (d > 0 && daily > 0.0) || (d < 0 && daily < 0.0)
  }

  predicate CooledDown(config: Config, last: Option<int>, now: int) {
    last.None? || (now - last.value) as real >= config.cooldownMinutes * 60.0
  }

  /** All confirmations, judged from the name's own history. */
  ghost predicate Confirmed(config: Config, own: seq<Event>, c: Check) {
    var d := Direction(config, c);
    && d != 0
    && Streak(Directions(config, own) + [d], Needed(config), d)
    && c.volumeRatio >= config.volumeMult
    && Agrees(config, d, c.dailySignal)
    && CooledDown(config, LastAction(own), c.now)
  }

  ghost function Answer(config: Config, own: seq<Event>, c: Check): int {
    if Confirmed(config, own, c) then Direction(config, c) else 0
  }

  /** The events of one name, in order. */
  ghost function Own(log: seq<Event>, symbol: string): seq<Event> {
    if log == [] then []
    else Own(log[..|log| - 1], symbol) + if log[|log| - 1].check.symbol == symbol then [log[|log| - 1]] else []
  }

  /** A run of the gate: every answer is the one its name's own history calls for. */
  ghost predicate Run(config: Config, log: seq<Event>) {
    log == [] ||
    (var init, last := log[..|log| - 1], log[|log| - 1];
     Run(config, init) && last.answer == Answer(config, Own(init, last.check.symbol), last.check))
  }

  // ------------------------------------------------------------------- the gate

  function LastN(s: seq<int>, n: nat): seq<int> {
    if |s| <= n then s else s[|s| - n..]
  }

  lemma AppendBounded(s: seq<int>, d: int, n: nat)
    requires n >= 1
    ensures LastN(LastN(s, n) + [d], n) == LastN(s + [d], n)
  {
  }

  /** What a name's history amounts to. */
  ghost function StateFor(config: Config, own: seq<Event>): NameState {
    NameState(LastN(Directions(config, own), Needed(config)), LastAction(own))
  }

  /** The state of every name is what its own history amounts to. */
  ghost predicate Remembers(config: Config, states: map<string, NameState>, log: seq<Event>) {
    forall s :: RemembersName(config, states, log, s)
  }

  ghost predicate RemembersName(config: Config, states: map<string, NameState>, log: seq<Event>, s: string) {
    var own := Own(log, s);
    (s in states <==> own != []) && (s in states ==> states[s] == StateFor(config, own))
  }

  // --------------------------------------------------- the answer, over what is measured

  /** The signal, up or down, is at least the given multiple of the name's own volatility, and there is one. */
  predicate Moves(config: Config, c: Check, up: bool) {
    config.sigmaMult > 0.0 && c.recentVol > 0.0
    && (if up then c.signal else -c.signal) >= Times(config.sigmaMult, c.recentVol)
  }

  lemma DirectionIs(config: Config, c: Check)
    ensures Direction(config, c) == if Moves(config, c, true) then 1 else if Moves(config, c, false) then -1 else 0
    ensures !(Moves(config, c, true) && Moves(config, c, false))
  {
    if config.sigmaMult > 0.0 && c.recentVol > 0.0 {
      assert Times(config.sigmaMult, c.recentVol) > 0.0;
    } else if c.recentVol > 0.0 {
      ProductNonNegative(-config.sigmaMult, c.recentVol);
    }
  }

  /** The last action before, if there was one, is at least the cooldown ago. */
  ghost predicate Rested(config: Config, own: seq<Event>, now: int) {
    forall i :: ActedLast(own, i) ==> (now - own[i].check.now) as real >= 60.0 * config.cooldownMinutes
  }

  /** The gate acted at the i-th check and at none after it. */
  ghost predicate ActedLast(own: seq<Event>, i: int) {
    0 <= i < |own| && own[i].answer != 0 && forall j :: i < j < |own| ==> own[j].answer == 0
  }

  lemma ActedLastBefore(own: seq<Event>, i: int)
    requires own != []
    ensures if own[|own| - 1].answer != 0 then ActedLast(own, i) <==> i == |own| - 1
            else ActedLast(own, i) <==> ActedLast(own[..|own| - 1], i)
  {
    var init := own[..|own| - 1];
    if own[|own| - 1].answer == 0 && ActedLast(own, i) {
      assert forall j :: i < j < |init| ==> init[j] == own[j];
    }
  }

  lemma {:induction false} RestedIff(config: Config, own: seq<Event>, now: int)
    ensures CooledDown(config, LastAction(own), now) <==> Rested(config, own, now)
  {
    if own != [] {
      var init := own[..|own| - 1];
      forall i ensures if own[|own| - 1].answer != 0 then ActedLast(own, i) <==> i == |own| - 1
                       else ActedLast(own, i) <==> ActedLast(init, i)
      {
        ActedLastBefore(own, i);
      }
      if own[|own| - 1].answer == 0 {
        RestedIff(config, init, now);
      } else {
        assert ActedLast(own, |own| - 1);
      }
    }
  }

  /**
   * A name clears the gate upward, or downward: this check and the ones needed before it all moved that way, on enough
   * volume, not against the daily signal if that counts, and rested.
   */
  ghost predicate Clears(config: Config, own: seq<Event>, c: Check, up: bool) {
    && Moves(config, c, up)
    && |own| + 1 >= config.persistence
    && (forall i :: 0 <= i < |own| && i > |own| - config.persistence ==> Moves(config, own[i].check, up))
    && c.volumeRatio >= config.volumeMult
    && (config.requireDailyAgreement ==> if up then c.dailySignal >= 0.0 else c.dailySignal <= 0.0)
    && Rested(config, own, c.now)
  }

  /** The gate answers +1 exactly if the name clears it upward, -1 exactly if downward, and otherwise 0. */
  lemma AnswerIff(config: Config, own: seq<Event>, c: Check)
    ensures Answer(config, own, c) ==
      if Clears(config, own, c, true) then 1 else if Clears(config, own, c, false) then -1 else 0
  {
    DirectionIs(config, c);
    RestedIff(config, own, c.now);
    if Moves(config, c, true) {
      StreakIff(config, own, c, true);
    } else if Moves(config, c, false) {
      StreakIff(config, own, c, false);
    }
  }

  lemma StreakIff(config: Config, own: seq<Event>, c: Check, up: bool)
    requires Moves(config, c, up)
    ensures var d := if up then 1 else -1;
      Streak(Directions(config, own) + [d], Needed(config), d) <==>
        |own| + 1 >= config.persistence &&
        forall i :: 0 <= i < |own| && i > |own| - config.persistence ==> Moves(config, own[i].check, up)
  {
    var d := if up then 1 else -1;
    var ds := Directions(config, own) + [d];
    forall i | 0 <= i < |own| ensures ds[i] == d <==> Moves(config, own[i].check, up) {
      DirectionIs(config, own[i].check);
    }
    if Streak(ds, Needed(config), d) {
      forall i | 0 <= i < |own| && i > |own| - config.persistence ensures Moves(config, own[i].check, up) {
        assert ds[i] == d;
      }
    }
  }

  /** The intraday move fights the daily signal. */
  predicate Fights(d: int, daily: real) {
    d as real * daily < 0.0
  }

  lemma FightingIsDisagreeing(config: Config, d: int, daily: real)
    requires d == 1 || d == -1
    ensures config.requireDailyAgreement && daily != 0.0 && Fights(d, daily) <==> !Agrees(config, d, daily)
  {
  }

  /** All checks on one name's state: the answer, and the state it leaves. */
  method Judge(config: Config, st: NameState, c: Check, ghost own: seq<Event>) returns (answer: int, next: NameState)
    requires st == StateFor(config, own)
    ensures answer == Answer(config, own, c)
    ensures answer == if Clears(config, own, c, true) then 1 else if Clears(config, own, c, false) then -1 else 0
    ensures next.directions == LastN(Directions(config, own) + [Direction(config, c)], Needed(config))
    ensures next.lastAction == if answer != 0 then Some(c.now) else LastAction(own)
  {
    AnswerIff(config, own, c);
    var direction := Direction(config, c);
    var directions := LastN(st.directions + [direction], Needed(config));
    AppendBounded(Directions(config, own), direction, Needed(config));
    StreakIsUniform(Directions(config, own) + [direction], Needed(config), direction);
    next := st.(directions := directions);
    if |directions| < config.persistence {
      return 0, next;
    }
    var proposed := directions[|directions| - 1];
    if proposed == 0 || exists i :: 0 <= i < |directions| && directions[i] != proposed {
      return 0, next;
    }
    if c.volumeRatio < config.volumeMult {
      return 0, next;
    }
    FightingIsDisagreeing(config, proposed, c.dailySignal);
    if config.requireDailyAgreement && c.dailySignal != 0.0 && Fights(proposed, c.dailySignal) {
      return 0, next;
    }
    if st.lastAction.Some? && (c.now - st.lastAction.value) as real < config.cooldownMinutes * 60.0 {
      return 0, next;
    }
    return proposed, next.(lastAction := Some(c.now));
  }

  class IntradayConfirmation {
    const config: Config
    var states: map<string, NameState>
    ghost var log: seq<Event>

    ghost predicate Valid()
      reads this
    {
      Run(config, log) && Remembers(config, states, log)
    }

    constructor (config: Config)
      ensures Valid() && log == [] && this.config == config
    {
      this.config := config;
      states := map[];
      log := [];
    }

    /** Answers +1, -1 or 0, and remembers. */
    method Confirm(c: Check) returns (answer: int)
      requires Valid()
      modifies this
      ensures Valid()
      ensures answer == Answer(config, Own(old(log), c.symbol), c)
      ensures var own := Own(old(log), c.symbol);
        answer == if Clears(config, own, c, true) then 1 else if Clears(config, own, c, false) then -1 else 0
      ensures log == old(log) + [Event(c, answer)]
    {
      ghost var own := Own(log, c.symbol);
      AnswerIff(config, own, c);
      assert RemembersName(config, states, log, c.symbol);
      var st := if c.symbol in states then states[c.symbol] else NameState([], None);
      var next;
      answer, next := Judge(config, st, c, own);
      RememberAfter(config, log, c, answer, next);
      RememberAll(config, states, log, Event(c, answer), next);
      assert (log + [Event(c, answer)])[..|log|] == log;
      states := states[c.symbol := next];
      log := log + [Event(c, answer)];
    }
  }

  lemma RememberAll(config: Config, states: map<string, NameState>, log: seq<Event>, e: Event, st: NameState)
    requires Remembers(config, states, log) && st == StateFor(config, Own(log + [e], e.check.symbol))
    ensures Remembers(config, states[e.check.symbol := st], log + [e])
  {
    var after, grown := states[e.check.symbol := st], log + [e];
    forall s ensures RemembersName(config, after, grown, s) {
      OwnAppend(log, e, s);
      assert RemembersName(config, states, log, s);
      if s != e.check.symbol {
        assert Own(grown, s) == Own(log, s);
      }
    }
  }

  /** The bounded memory is uniform exactly when the last needed checks are a streak. */
  lemma StreakIsUniform(ds: seq<int>, n: nat, d: int)
    requires n >= 1 && ds != [] && ds[|ds| - 1] == d
    ensures var kept := LastN(ds, n);
      kept != [] && kept[|kept| - 1] == d
      && (Streak(ds, n, d) <==> |kept| >= n && forall i :: 0 <= i < |kept| ==> kept[i] == d)
  {
    var kept := LastN(ds, n);
    if |ds| >= n {
      assert |kept| == n && forall i :: 0 <= i < n ==> kept[i] == ds[|ds| - n + i];
      if forall i :: 0 <= i < |kept| ==> kept[i] == d {
        forall i | |ds| - n <= i < |ds| ensures ds[i] == d {
          assert ds[i] == kept[i - (|ds| - n)];
        }
      }
    }
  }

  lemma OwnAppend(log: seq<Event>, e: Event, s: string)
    ensures Own(log + [e], s) == Own(log, s) + if e.check.symbol == s then [e] else []
  {
    assert (log + [e])[..|log|] == log;
  }

  lemma RememberAfter(config: Config, log: seq<Event>, c: Check, answer: int, st: NameState)
    requires st.directions == LastN(Directions(config, Own(log, c.symbol)) + [Direction(config, c)], Needed(config))
    requires st.lastAction == if answer != 0 then Some(c.now) else LastAction(Own(log, c.symbol))
    ensures var own := Own(log + [Event(c, answer)], c.symbol);
      st == StateFor(config, own)
  {
    var before, e := Own(log, c.symbol), Event(c, answer);
    OwnAppend(log, e, c.symbol);
    assert Directions(config, before + [e]) == Directions(config, before) + [Direction(config, c)];
    assert (before + [e])[..|before|] == before;
  }

  // ------------------------------------------------------------ laws over whole runs

  /** A name's answers depend on its own checks alone, however other names' checks are interleaved. */
  lemma {:induction false} OwnHistoryDecides(config: Config, a: seq<Event>, b: seq<Event>, s: string)
    requires Run(config, a) && Run(config, b)
    requires Checks(Own(a, s)) == Checks(Own(b, s))
    ensures Own(a, s) == Own(b, s)
    decreases |a| + |b|
  {
    if a != [] && a[|a| - 1].check.symbol != s {
      OwnHistoryDecides(config, a[..|a| - 1], b, s);
    } else if b != [] && b[|b| - 1].check.symbol != s {
      OwnHistoryDecides(config, a, b[..|b| - 1], s);
    } else if a != [] && b != [] {
      var x, y := a[..|a| - 1], b[..|b| - 1];
      assert Checks(Own(a, s))[..|Own(a, s)| - 1] == Checks(Own(x, s));
      assert Checks(Own(b, s))[..|Own(b, s)| - 1] == Checks(Own(y, s));
      OwnHistoryDecides(config, x, y, s);
      assert a[|a| - 1].check == Checks(Own(a, s))[|Own(a, s)| - 1];
      assert b[|b| - 1].check == Checks(Own(b, s))[|Own(b, s)| - 1];
    } else {
      assert |Checks(Own(a, s))| == |Checks(Own(b, s))|;
    }
  }

  function Checks(events: seq<Event>): (checks: seq<Check>)
    ensures |checks| == |events|
  {
    seq(|events|, i requires 0 <= i < |events| => events[i].check)
  }

  /** What a run's k-th answer was decided by: the name's own events before it. */
  lemma {:induction false} AnswerAt(config: Config, log: seq<Event>, k: nat)
    requires Run(config, log) && k < |log|
    ensures log[k].answer == Answer(config, Own(log[..k], log[k].check.symbol), log[k].check)
  {
    if k < |log| - 1 {
      AnswerAt(config, log[..|log| - 1], k);
      assert log[..|log| - 1][..k] == log[..k];
    }
  }

  /** A non-zero answer: the name's last needed checks, this one included, all moved its way. */
  lemma ActsOnlyOnPersistence(config: Config, log: seq<Event>, k: nat)
    requires Run(config, log) && k < |log| && log[k].answer != 0
    ensures var own, up := Own(log[..k], log[k].check.symbol), log[k].answer > 0;
      && log[k].answer == (if up then 1 else -1)
      && Moves(config, log[k].check, up)
      && |own| + 1 >= config.persistence
      && forall i :: 0 <= i < |own| && i > |own| - config.persistence ==> Moves(config, own[i].check, up)
  {
    AnswerAt(config, log, k);
    AnswerIff(config, Own(log[..k], log[k].check.symbol), log[k].check);
  }

  ghost predicate InTimeOrder(own: seq<Event>) {
    forall i, j :: 0 <= i < j < |own| ==> own[i].check.now <= own[j].check.now
  }

  lemma {:induction false} LastActionIsLast(own: seq<Event>, i: nat)
    requires i < |own| && own[i].answer != 0
    ensures LastAction(own).Some?
    ensures InTimeOrder(own) ==> own[i].check.now <= LastAction(own).value
  {
    if own[|own| - 1].answer == 0 {
      LastActionIsLast(own[..|own| - 1], i);
    }
  }

  /** Two non-zero answers for one name, checked in time order, are at least the cooldown apart. */
  lemma ActionsAreSpaced(config: Config, log: seq<Event>, k: nat, i: nat)
    requires Run(config, log) && k < |log| && log[k].answer != 0
    requires i < |Own(log[..k], log[k].check.symbol)| && Own(log[..k], log[k].check.symbol)[i].answer != 0
    requires InTimeOrder(Own(log[..k], log[k].check.symbol))
    ensures (log[k].check.now - Own(log[..k], log[k].check.symbol)[i].check.now) as real
      >= config.cooldownMinutes * 60.0
  {
    AnswerAt(config, log, k);
    LastActionIsLast(Own(log[..k], log[k].check.symbol), i);
  }
}
