/** The target detector (src/mdioprobe_bus.c): rail classification, the two-sample
    debounce, the forced level, and the inhibit depth transactions hold. */
module BusDetector {

  datatype Rc = Ok | Einval

  /** One ADC reading: a failed conversion, or a level and how many of the samples
      clustered at it. */
  datatype Sample = Sample(failed: bool, mv: int, used: nat, total: nat)

  /** The acceptance window of a rail at a tolerance in thousandths. */
  function Low(rail: nat, tol: nat): int
    requires tol <= 1000
  {
    (rail * (1000 - tol) + 999) / 1000
  }

  function High(rail: nat, tol: nat): int {
    rail * (1000 + tol) / 1000
  }

  predicate Matches(mv: int, rail: nat) {
    Low(rail, 137) <= mv <= High(rail, 137)
  }

  /** The rail a reading names, or -1. */
  function Classify(mv: int): int {
    if Matches(mv, 1800) then 1800 else if Matches(mv, 2500) then 2500
    else if Matches(mv, 3300) then 3300 else -1
  }

  predicate Rail(mv: int) { mv == 1800 || mv == 2500 || mv == 3300 }

  /** The order of the table does not matter, and the comment's claim holds: 13.7 % is
      the widest tolerance, in thousandths, that keeps the three windows apart. */
  lemma WidestTolerance(tol: nat)
    requires tol <= 1000
    ensures tol <= 137 <==> High(1800, tol) < Low(2500, tol) && High(2500, tol) < Low(3300, tol)
  {
  }

  lemma ClassifyIsTheMatch(mv: int, rail: nat)
    requires Rail(rail)
    ensures Classify(mv) == rail <==> Matches(mv, rail)
    ensures Matches(mv, rail) ==> mv >= 1500
  {
    WidestTolerance(137);
  }

  /** Enough of the samples clustered for the level to mean anything. */
  predicate Sane(s: Sample) {
    !s.failed && s.mv > 0 && s.used >= (if s.total / 4 < 2 then 2 else s.total / 4)
  }

  /** The rail one poll saw: a sane level inside a window. */
  function Verdict(s: Sample): (rail: int)
    ensures rail == -1 || Rail(rail)
  {
    if Sane(s) && s.mv >= 1500 then Classify(s.mv) else -1
  }

  /** The windows in millivolts, and what a reading must have to be looked up in them. */
  lemma ReadingsCount(s: Sample)
    ensures Verdict(s) == if s.failed || s.mv <= 0 || s.used < 2 || s.used < s.total / 4 then -1
                          else if 1554 <= s.mv <= 2046 then 1800
                          else if 2158 <= s.mv <= 2842 then 2500
                          else if 2848 <= s.mv <= 3752 then 3300
                          else -1
    ensures Sane(s) <==> !s.failed && s.mv > 0 && s.used >= 2 && s.used >= s.total / 4
  {
  }

  /** Presence, told from the polls that were not inhibited: what the last two agreeing
      neighbours said, and absent before there were any. */
  function Presence(polls: seq<int>): bool {
    var n := |polls|;
    if n < 2 then false
    else if (polls[n - 1] > 0) == (polls[n - 2] > 0) then polls[n - 1] > 0
    else Presence(polls[..n - 1])
  }

  /** Presence changes at a poll exactly when that poll and the one before both say the
      opposite of what it was. */
  lemma PresenceFlips(polls: seq<int>, rail: int)
    ensures var n := |polls|;
            Presence(polls + [rail]) != Presence(polls)
            <==> n > 0 && (rail > 0) == (polls[n - 1] > 0) && (rail > 0) != Presence(polls)
  {
    assert (polls + [rail])[..|polls|] == polls;
  }

  /** Nobody is there before two polls said so. */
  lemma AbsentAtFirst(polls: seq<int>)
    requires |polls| < 2
    ensures !Presence(polls)
  {
  }

  /** Isolated polls never change it: alternate as they may, it stays. */
  lemma {:induction false} NoFlapping(polls: seq<int>, more: seq<int>)
    requires |polls| > 0
    requires forall i :: 0 <= i < |more| ==> (more[i] > 0) != ((if i == 0 then polls[|polls| - 1] else more[i - 1]) > 0)
    ensures Presence(polls + more) == Presence(polls)
  {
    if more == [] {
      assert polls + more == polls;
    } else {
      var m := |more| - 1;
      NoFlapping(polls, more[..m]);
      var sofar := polls + more[..m];
      assert polls + more == sofar + [more[m]];
      assert sofar[|sofar| - 1] == if m == 0 then polls[|polls| - 1] else more[m - 1];
      assert (more[m] > 0) != (sofar[|sofar| - 1] > 0);
      PresenceFlips(sofar, more[m]);
    }
  }

  class Detector {
    var present: bool
    var nominal: int             // status.nominal_mv
    var measured: int
    var forced: int              // 0: automatic
    var inhibit: int
    var connStreak: nat
    var discStreak: nat
    ghost var polls: seq<int>    // what each poll that was not inhibited saw
    ghost var withdrawn: int     // the forced level let go since the last such poll, or 0

    constructor ()
      ensures Valid() && forced == 0 && inhibit == 0 && polls == [] && withdrawn == 0
      ensures !Ready() && NominalMv() == -1
    {
      present, nominal, measured, forced, inhibit := false, -1, -1, 0, 0;
      connStreak, discStreak, polls, withdrawn := 0, 0, [], 0;
    }

    /** The two streaks, saturating at 2, and the presence they give. */
    ghost predicate Tracks()
      reads this
    {
      var n := |polls|;
      && connStreak == (if n == 0 || polls[n - 1] <= 0 then 0 else if n == 1 || polls[n - 2] <= 0 then 1 else 2)
      && discStreak == (if n == 0 || polls[n - 1] > 0 then 0 else if n == 1 || polls[n - 2] > 0 then 1 else 2)
      && present == Presence(polls)
    }

    ghost predicate Valid()
      reads this
    {
      var n := |polls|;
      && inhibit >= 0 && Tracks()
      && (forall i :: 0 <= i < n ==> polls[i] == -1 || Rail(polls[i]))
      && (forced == 0 || Rail(forced)) && (withdrawn == 0 || Rail(withdrawn))
      && (forced != 0 ==> withdrawn == 0 && nominal == forced)
      && (forced == 0 ==> nominal == if withdrawn != 0 then withdrawn
                                     else if present then polls[n - 1] else -1)
    }

    function Ready(): bool
      reads this
    {
      present || forced != 0
    }

    /** mdioprobe_bus_nominal_mv: the rail other modules work to. */
    function NominalMv(): int
      reads this
    {
      if forced != 0 then forced else if present then nominal else -1
    }

    /** Ready does not mean there is a rail: there is one exactly when it is forced, or a
        forced one was let go and nothing polled since, or the last poll saw one. */
    lemma RailKnown()
      requires Valid()
      ensures NominalMv() > 0 <==>
                forced != 0 || (present && (withdrawn != 0 || (|polls| > 0 && polls[|polls| - 1] > 0)))
      ensures NominalMv() > 0 ==> Rail(NominalMv()) && Ready()
    {
    }

    method Debounce(rail: int)
      requires Tracks()
      modifies this`connStreak, this`discStreak, this`present, this`polls
      ensures Tracks() && polls == old(polls) + [rail]
    {
      var was := present;
      if rail > 0 {
        discStreak := 0;
        if connStreak < 2 {
          connStreak := connStreak + 1;
        }
      } else {
        connStreak := 0;
        if discStreak < 2 {
          discStreak := discStreak + 1;
        }
      }
      if !was && connStreak >= 2 {
        present := true;
      } else if was && discStreak >= 2 {
        present := false;
      }
      PresenceFlips(polls, rail);
      polls := polls + [rail];
    }

    /** The part of bus_update under its lock. */
    method Record(rail: int)
      requires Valid() && (rail == -1 || Rail(rail))
      modifies this
      ensures Valid() && polls == old(polls) + [rail] && withdrawn == 0
      ensures forced == old(forced) && inhibit == old(inhibit) && measured == old(measured)
    {
      Debounce(rail);
      nominal := if forced != 0 then forced else if present then rail else -1;
      withdrawn := 0;
    }

    /** bus_update: nothing at all while a transaction holds the line. Else what it saw is
        a rail whose window the level is in, if at least two of the samples and at least a
        quarter of them clustered at it. */
    method Poll(s: Sample)
      requires Valid()
      modifies this
      ensures Valid() && inhibit == old(inhibit) && forced == old(forced)
      ensures inhibit > 0 ==> polls == old(polls) && present == old(present) && withdrawn == old(withdrawn)
                              && NominalMv() == old(NominalMv()) && measured == old(measured)
      ensures inhibit == 0 ==> polls == old(polls) + [Verdict(s)] && withdrawn == 0
                               && measured == if Sane(s) then s.mv else -1
      ensures inhibit == 0 ==>
                |polls| > 0 && polls[|polls| - 1]
                == if s.failed || s.mv <= 0 || s.used < 2 || s.used < s.total / 4 then -1
                   else if 1554 <= s.mv <= 2046 then 1800
                   else if 2158 <= s.mv <= 2842 then 2500
                   else if 2848 <= s.mv <= 3752 then 3300
                   else -1
      ensures inhibit == 0 ==>
                measured == if s.failed || s.mv <= 0 || s.used < 2 || s.used < s.total / 4 then -1 else s.mv
    {
      ReadingsCount(s);
      if inhibit > 0 {
        return;
      }
      Record(Verdict(s));
      measured := if Sane(s) then s.mv else -1;
    }

    /** mdioprobe_bus_force_level. */
    method ForceLevel(mv: int) returns (rc: Rc)
      requires Valid()
      modifies this
      ensures Valid() && polls == old(polls) && present == old(present) && inhibit == old(inhibit)
      ensures rc == Rc.Ok <==> mv == 0 || Rail(mv)
      ensures rc == Einval ==> forced == old(forced) && withdrawn == old(withdrawn)
      ensures rc == Rc.Ok ==> forced == mv
      ensures rc == Rc.Ok && mv == 0 ==>
                withdrawn == if old(forced) != 0 then old(forced) else old(withdrawn)
    {
      if mv != 0 && !Rail(mv) {
        return Einval;
      }
      if mv != 0 {
        nominal := mv;
        withdrawn := 0;
      } else if forced != 0 {
        withdrawn := forced;
      }
      forced := mv;
      return Rc.Ok;
    }

    method Inhibit(on: bool)
      requires Valid()
      modifies this`inhibit
      ensures Valid() && NominalMv() == old(NominalMv()) && Ready() == old(Ready())
      ensures inhibit == old(inhibit) + (if on then 1 else if old(inhibit) > 0 then -1 else 0)
    {
      if on {
        inhibit := inhibit + 1;
      } else if inhibit > 0 {
        inhibit := inhibit - 1;
      }
    }
  }

  /** Ready with no rail: two good polls, then one that saw nothing. */
  lemma ReadyWithoutRail(rail: int)
    requires rail > 0
    ensures Presence([rail, rail, -1])
  {
    assert [rail, rail, -1][..2] == [rail, rail];
  }
}
