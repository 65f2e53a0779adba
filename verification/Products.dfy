/** The few facts about products of variables that the other modules need. */
module Products {

  lemma TimesMonotone(a: nat, b: nat, c: nat)
    ensures a <= b ==> a * c <= b * c
  {
  }

  lemma TimesSuccessor(n: int, d: int)
    ensures (n + 1) * d == n * d + d
  {
  }
}
