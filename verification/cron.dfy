/** The body of the periodic job: list all users, and for each one fetch the
    weather at its location and push one reading onto its history. The
    callbacks that `forEach` starts run concurrently in the program; each
    touches only its own user, so they are modelled one after another. */
module Cron {

  import opened Common
  import opened UserModel

  /** The environment of one cycle: the capture each user's fetch yields,
      given that user's email and current location. */
  type Captures = (string, Location) -> Capture

  /** One cycle over the whole store. */
  function Cycle(s: Store, captures: Captures): (t: Store)
    ensures t.Keys == s.Keys
    ensures forall e :: e in s ==>
              && t[e].email == s[e].email
              && t[e].location == s[e].location
              && t[e].history == s[e].history + [NewReading(captures(e, s[e].location))]
  {
    map e | e in s :: Appended(s[e], captures(e, s[e].location))
  }

  /** The cycle as the job runs it: users are visited one at a time, in an
      order the model leaves open, each exactly once. */
  method RunCycle(s: Store, captures: Captures) returns (t: Store)
    ensures t.Keys == s.Keys
    ensures forall e :: e in s ==> t[e] == Appended(s[e], captures(e, s[e].location))
  {
    t := s;
    var pending := s.Keys;
    while pending != {}
      invariant pending <= s.Keys
      invariant t.Keys == s.Keys
      invariant forall e :: e in pending ==> t[e] == s[e]
      invariant forall e :: e in s && e !in pending ==> t[e] == Appended(s[e], captures(e, s[e].location))
      decreases pending
    {
      var e :| e in pending;
      t := t[e := Appended(t[e], captures(e, t[e].location))];
      pending := pending - {e};
    }
  }

  /** The visiting loop computes the same store as the cycle's definition. */
  lemma RunCycleAgrees(s: Store, captures: Captures, t: Store)
    requires t.Keys == s.Keys
    requires forall e :: e in s ==> t[e] == Appended(s[e], captures(e, s[e].location))
    ensures t == Cycle(s, captures)
  {
  }

  /** A user's new record depends on nothing but its own record and its own
      capture: stores and environments that agree there give the same
      result for that user, whatever the other users are. */
  lemma CycleIsolation(s1: Store, c1: Captures, s2: Store, c2: Captures, e: string)
    requires e in s1 && e in s2 && s1[e] == s2[e]
    requires c1(e, s1[e].location) == c2(e, s2[e].location)
    ensures Cycle(s1, c1)[e] == Cycle(s2, c2)[e]
  {
  }

  /** A cycle keeps the store's constraints: no user appears or disappears,
      and no email changes. */
  lemma CyclePreservesWellFormed(s: Store, captures: Captures)
    requires WellFormed(s)
    ensures WellFormed(Cycle(s, captures))
  {
  }

  /** Successive cycles, one environment per cycle. */
  function Cycles(s: Store, rounds: seq<Captures>): Store
    decreases |rounds|
  {
    if rounds == [] then s else Cycles(Cycle(s, rounds[0]), rounds[1..])
  }

  /** After N cycles the set of users is the same. */
  lemma {:induction false} CyclesKeepUsers(s: Store, rounds: seq<Captures>)
    ensures Cycles(s, rounds).Keys == s.Keys
    decreases |rounds|
  {
    if rounds != [] {
      CyclesKeepUsers(Cycle(s, rounds[0]), rounds[1..]);
    }
  }

  /** After N cycles a user still has the same email and location, and its
      history is the old one followed by exactly N new readings. */
  lemma {:induction false} CyclesAppendOnePerRound(s: Store, rounds: seq<Captures>, e: string)
    requires e in s
    ensures e in Cycles(s, rounds)
    ensures Cycles(s, rounds)[e].email == s[e].email
    ensures Cycles(s, rounds)[e].location == s[e].location
    ensures |Cycles(s, rounds)[e].history| == |s[e].history| + |rounds|
    ensures s[e].history <= Cycles(s, rounds)[e].history
    decreases |rounds|
  {
    if rounds != [] {
      var s1 := Cycle(s, rounds[0]);
      CyclesAppendOnePerRound(s1, rounds[1..], e);
      assert s[e].history <= s1[e].history;
    }
  }
}
