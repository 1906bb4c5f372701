/** The points balance and the mentorship state machine
    not_enough_points -> uninitialized -> waiting -> mentored. */
module Mentorship {
  import opened Records

  /** The balance at which a kid becomes eligible for a mentor. */
  const MentorshipRequires: int := 1000

  /** How far along the state machine a state is. */
  function Stage(m: MentorshipState): nat {
    match m
    case NotEnoughPoints => 0
    case Uninitialized => 1
    case Waiting => 2
    case Mentored => 3
  }

  /** The state once the balance has become `points`: only a kid that has
      not enough points moves, and only to `Uninitialized`. */
  function Advance(m: MentorshipState, points: int): (r: MentorshipState)
    ensures r == Uninitialized <==>
      (m == NotEnoughPoints && points >= MentorshipRequires) || m == Uninitialized
    ensures r == NotEnoughPoints <==> m == NotEnoughPoints && points < MentorshipRequires
    ensures m != NotEnoughPoints ==> r == m
    ensures Stage(m) <= Stage(r) <= Stage(m) + 1
  {
    if points >= MentorshipRequires && m == NotEnoughPoints then Uninitialized else m
  }

  /** The kid after a signed `amount` is credited to it. */
  function Credit(k: Kid, amount: int): (r: Kid)
    ensures r.points == k.points + amount
    ensures r.mentorship == Advance(k.mentorship, r.points)
    ensures r.(points := k.points, mentorship := k.mentorship) == k
  {
    var points := k.points + amount;
    k.(points := points, mentorship := Advance(k.mentorship, points))
  }

  function Sum(amounts: seq<int>): int {
    if |amounts| == 0 then 0 else amounts[0] + Sum(amounts[1..])
  }

  /** The kid after the amounts are credited one request at a time. */
  function CreditAll(k: Kid, amounts: seq<int>): Kid
    decreases |amounts|
  {
    if |amounts| == 0 then k else CreditAll(Credit(k, amounts[0]), amounts[1..])
  }

  /** Some running balance, observed after one of the credits, reaches the
      threshold. */
  ghost predicate ReachesThreshold(start: int, amounts: seq<int>) {
    exists j :: 1 <= j <= |amounts| && start + Sum(amounts[..j]) >= MentorshipRequires
  }

  lemma SumFirst(amounts: seq<int>, j: nat)
    requires 1 <= j <= |amounts|
    ensures Sum(amounts[..j]) == amounts[0] + Sum(amounts[1..][..j - 1])
  {
    assert amounts[..j][1..] == amounts[1..][..j - 1];
  }

  /** A run of credits adds up: the final balance is the start plus every amount. */
  lemma {:induction false} CreditAllPoints(k: Kid, amounts: seq<int>)
    ensures CreditAll(k, amounts).points == k.points + Sum(amounts)
    decreases |amounts|
  {
    if |amounts| > 0 {
      CreditAllPoints(Credit(k, amounts[0]), amounts[1..]);
    }
  }

  /** Once a kid has left `NotEnoughPoints`, no run of credits moves it,
      even when the balance falls back below the threshold. */
  lemma {:induction false} CreditAllNeverRegresses(k: Kid, amounts: seq<int>)
    requires k.mentorship != NotEnoughPoints
    ensures CreditAll(k, amounts).mentorship == k.mentorship
    decreases |amounts|
  {
    if |amounts| > 0 {
      CreditAllNeverRegresses(Credit(k, amounts[0]), amounts[1..]);
    }
  }

  /** A kid with not enough points becomes `Uninitialized` exactly when some
      running balance has reached the threshold, and stays in
      `NotEnoughPoints` otherwise. */
  lemma {:induction false} CreditAllMentorship(k: Kid, amounts: seq<int>)
    requires k.mentorship == NotEnoughPoints
    ensures CreditAll(k, amounts).mentorship ==
      if ReachesThreshold(k.points, amounts) then Uninitialized else NotEnoughPoints
    decreases |amounts|
  {
    if |amounts| == 0 {
      assert !ReachesThreshold(k.points, amounts);
    } else {
      var k' := Credit(k, amounts[0]);
      var rest := amounts[1..];
      SumFirst(amounts, 1);
      if k'.points >= MentorshipRequires {
        CreditAllNeverRegresses(k', rest);
        assert k.points + Sum(amounts[..1]) >= MentorshipRequires;
      } else {
        CreditAllMentorship(k', rest);
        if ReachesThreshold(k.points, amounts) {
          var j :| 1 <= j <= |amounts| && k.points + Sum(amounts[..j]) >= MentorshipRequires;
          SumFirst(amounts, j);
          assert j >= 2;
          assert k'.points + Sum(rest[..j - 1]) >= MentorshipRequires;
        }
        if ReachesThreshold(k'.points, rest) {
          var j :| 1 <= j <= |rest| && k'.points + Sum(rest[..j]) >= MentorshipRequires;
          SumFirst(amounts, j + 1);
          assert k.points + Sum(amounts[..j + 1]) >= MentorshipRequires;
        }
      }
    }
  }
}
