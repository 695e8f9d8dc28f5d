/** The `-T1`..`-T5` timing profiles (`T_PROFILES` in port_scanner.py).
    Times are whole milliseconds: the source's 3.0 s is 3000 here, its
    0.05 s is 50, so no floating point is involved. */
module Timing {

  /** The connect timeout applied to each socket, and the pause taken after
      each probe when it is not zero. */
  datatype Profile = Profile(timeoutMs: nat, delayMs: nat)

  const Profiles: map<int, Profile> := map[
    1 := Profile(3000, 400),
    2 := Profile(1500, 200),
    3 := Profile(500, 0),
    4 := Profile(200, 0),
    5 := Profile(50, 0)
  ]

  /** The level used when the requested one has no entry. */
  const DefaultLevel := 3

  /** `T_PROFILES.get(t_level, T_PROFILES[3])`: every level, known or not,
      gets an entry of the table, and every entry has a positive timeout
      longer than its pause. */
  function ProfileFor(level: int): (p: Profile)
    ensures p in Profiles.Values
    ensures p.timeoutMs > 0 && p.delayMs < p.timeoutMs
  {
    if level in Profiles then Profiles[level] else Profiles[DefaultLevel]
  }

  /** The table as written, in milliseconds, and the fallback for a level
      it does not list. */
  lemma ProfileTable(level: int)
    ensures ProfileFor(1) == Profile(3000, 400)
    ensures ProfileFor(2) == Profile(1500, 200)
    ensures ProfileFor(3) == Profile(500, 0)
    ensures ProfileFor(4) == Profile(200, 0)
    ensures ProfileFor(5) == Profile(50, 0)
    ensures !(1 <= level <= 5) ==> ProfileFor(level) == Profile(500, 0)
  {
  }

  /** `if delay:` in the scan loop: a zero delay never sleeps. */
  predicate Pauses(p: Profile) {
    p.delayMs != 0
  }

  /** A level outside the table behaves exactly like level 3, and no other
      level in the table does. */
  lemma UnknownLevelIsDefault(level: int)
    ensures ProfileFor(level) == ProfileFor(DefaultLevel) <==> level !in {1, 2, 4, 5}
  {
  }

  /** A higher level is strictly faster per probe and never pauses longer. */
  lemma HigherLevelIsFaster(i: int, j: int)
    requires 1 <= i < j <= 5
    ensures ProfileFor(j).timeoutMs < ProfileFor(i).timeoutMs
    ensures ProfileFor(j).delayMs <= ProfileFor(i).delayMs
  {
  }

  /** Only levels 1 and 2 sleep between probes. */
  lemma PausingLevels(level: int)
    ensures Pauses(ProfileFor(level)) <==> level == 1 || level == 2
  {
  }
}
