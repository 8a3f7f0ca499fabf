/** The selection loop that recurs throughout the scripts:

      best, best_score = None, floor
      for i, x in enumerate(xs):
          if score(x) > best_score:
              best, best_score = i, score(x)

    Because the comparison is strict, the FIRST index with the largest score
    wins, and nothing is chosen when no score exceeds the floor. */
module Select {
  import opened Base

  /** `best` is the first index of a largest score among `scores[..i]`, and
      that score is above `floor`; `None` means no score there beats `floor`. */
  predicate FirstMaxOf(scores: seq<int>, i: nat, floor: int, best: Option<nat>)
    requires i <= |scores|
  {
    match best
    case None => forall j | 0 <= j < i :: scores[j] <= floor
    case Some(b) =>
      b < i && scores[b] > floor
      && (forall j | 0 <= j < i :: scores[j] <= scores[b])
      && (forall j | 0 <= j < b :: scores[j] < scores[b])
  }

  /** The running loop state: best index so far and its score. */
  function ArgMaxFrom(scores: seq<int>, i: nat, floor: int, best: Option<nat>, bestScore: int): (r: Option<nat>)
    requires i <= |scores|
    requires FirstMaxOf(scores, i, floor, best)
    requires bestScore == (if best.Some? then scores[best.value] else floor)
    ensures FirstMaxOf(scores, |scores|, floor, r)
    decreases |scores| - i
  {
    if i == |scores| then best
    else if scores[i] > bestScore then ArgMaxFrom(scores, i + 1, floor, Some(i), scores[i])
    else ArgMaxFrom(scores, i + 1, floor, best, bestScore)
  }

  /** The whole loop, started from `best = None, best_score = floor`. */
  function FirstMax(scores: seq<int>, floor: int): (r: Option<nat>)
    ensures r.None? <==> forall j | 0 <= j < |scores| :: scores[j] <= floor
    ensures r.Some? ==> r.value < |scores| && scores[r.value] > floor
    ensures r.Some? ==> forall j | 0 <= j < |scores| :: scores[j] <= scores[r.value]
    ensures r.Some? ==> forall j | 0 <= j < r.value :: scores[j] < scores[r.value]
  {
    ArgMaxFrom(scores, 0, floor, None, floor)
  }

  /** The first maximum is unique: any index with the same three properties is
      the one `FirstMax` returns. */
  lemma FirstMaxUnique(scores: seq<int>, floor: int, k: nat)
    requires k < |scores| && scores[k] > floor
    requires forall j | 0 <= j < |scores| :: scores[j] <= scores[k]
    requires forall j | 0 <= j < k :: scores[j] < scores[k]
    ensures FirstMax(scores, floor) == Some(k)
  {
    assert FirstMax(scores, floor).Some?;
  }

  /** One step of the loop keeps the invariant. */
  lemma FirstMaxStep(scores: seq<int>, i: nat, floor: int, best: Option<nat>)
    requires i < |scores| && FirstMaxOf(scores, i, floor, best)
    ensures var bs := if best.Some? then scores[best.value] else floor;
      FirstMaxOf(scores, i + 1, floor, if scores[i] > bs then Some(i) else best)
  {
  }
}
