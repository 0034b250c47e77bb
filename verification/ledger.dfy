/** The experience/level ledger kept on a profile row: `profile.exp += weight;
    profile.level = Math.floor(profile.exp / 1000)`. */
module Ledger {
  import opened Rows

  /** Experience awarded for creating a post. */
  const PostReward: nat := 100
  /** Experience awarded for creating a comment. */
  const CommentReward: nat := 50
  /** Experience per level. */
  const ExpPerLevel: nat := 1000

  /** A profile row whose experience is a non-negative integer and whose level is derived from it. */
  predicate Consistent(p: Row)
  {
    && "exp" in p && p["exp"].Int? && p["exp"].i >= 0
    && "level" in p && p["level"] == Int(p["exp"].i / ExpPerLevel)
  }

  function Exp(p: Row): int
    requires "exp" in p && p["exp"].Int?
  {
    p["exp"].i
  }

  /** The profile after one scoring event of the given weight. Dafny's `/` by a positive
      constant rounds down for every integer, as `Math.floor(exp / 1000)` does. */
  function Award(p: Row, weight: nat): (r: Row)
    requires "exp" in p && p["exp"].Int?
    ensures r.Keys == p.Keys + {"level"}
    ensures "exp" in r && r["exp"].Int? && Exp(r) == Exp(p) + weight
    ensures r["level"] == Int(Exp(r) / ExpPerLevel)
    ensures forall k :: k in p && k != "exp" && k != "level" ==> r[k] == p[k]
    ensures Exp(p) >= 0 ==> Consistent(r)
  {
    var e := p["exp"].i + weight;
    p["exp" := Int(e)]["level" := Int(e / ExpPerLevel)]
  }

  /** The profile after a sequence of scoring events, applied in order. */
  function AwardAll(p: Row, weights: seq<nat>): (r: Row)
    requires "exp" in p && p["exp"].Int?
    ensures "exp" in r && r["exp"].Int?
    decreases |weights|
  {
    if weights == [] then p else AwardAll(Award(p, weights[0]), weights[1..])
  }

  function Sum(weights: seq<nat>): nat
  {
    if weights == [] then 0 else weights[0] + Sum(weights[1..])
  }

  /** After any sequence of scoring events the level is still `floor(exp / 1000)`, and the
      experience has grown by exactly the sum of the weights. */
  lemma {:induction false} LedgerStaysConsistent(p: Row, weights: seq<nat>)
    requires Consistent(p)
    ensures Consistent(AwardAll(p, weights))
    ensures Exp(AwardAll(p, weights)) == Exp(p) + Sum(weights)
    decreases |weights|
  {
    if weights != [] {
      LedgerStaysConsistent(Award(p, weights[0]), weights[1..]);
    }
  }

  /** Scoring never lowers experience or level. */
  lemma {:induction false} LedgerMonotone(p: Row, weights: seq<nat>)
    requires Consistent(p)
    ensures Consistent(AwardAll(p, weights))
    ensures Exp(AwardAll(p, weights)) >= Exp(p)
    ensures AwardAll(p, weights)["level"].i >= p["level"].i
  {
    LedgerStaysConsistent(p, weights);
    LevelMonotone(Exp(p), Exp(AwardAll(p, weights)));
  }

  lemma LevelMonotone(a: int, b: int)
    requires a <= b
    ensures a / ExpPerLevel <= b / ExpPerLevel
  {
  }
}
