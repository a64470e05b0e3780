/** Taking turns: a schedule that comes to everyone again and again. */
module Turns {

  /** Whose turn it is, of 0 .. m-1. */
  function Turn(m: nat, round: nat): (t: nat)
    requires m > 0
    ensures t < m
  {
    if round == 0 then 0
    else
      var t := Turn(m, round - 1);
      if t + 1 < m then t + 1 else 0
  }

  lemma {:induction false} TurnComes(m: nat, round: nat, t: nat) returns (r: nat)
    requires t < m
    ensures r >= round && Turn(m, r) == t
    decreases (if Turn(m, round) <= t then 0 else m) + t - Turn(m, round)
  {
    r := round;
    if Turn(m, round) != t {
      r := TurnComes(m, round + 1, t);
    }
  }
}
