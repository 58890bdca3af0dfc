/** Replacing a file as a whole: the content goes to a temporary file that is moved over the target, with a few retries. */
module FileStores {

  /** What becomes of one attempt. A process that dies has moved the temporary file over the target, or it has not. */
  datatype Attempt = Succeeds | FailsTransiently | FailsForGood | Dies(moved: bool)

  datatype Outcome = Written | GaveUp | Died

  const MAX_ATTEMPTS := 4
  const FIRST_DELAY := 100
  const MAX_DELAY := 1000

  function NextDelay(delay: int): int {
    if 2 * delay <= MAX_DELAY then 2 * delay else MAX_DELAY
  }

  function DelayAfter(attempt: nat): int {
    if attempt == 0 then FIRST_DELAY else NextDelay(DelayAfter(attempt - 1))
  }

  function Power2(n: nat): nat {
    if n == 0 then 1 else 2 * Power2(n - 1)
  }

  /** The delay doubles with every retry up to a second. */
  lemma {:induction false} DelayDoubles(attempt: nat)
    ensures DelayAfter(attempt) == if FIRST_DELAY * Power2(attempt) <= MAX_DELAY then FIRST_DELAY * Power2(attempt) else MAX_DELAY
  {
    if attempt > 0 {
      DelayDoubles(attempt - 1);
    }
  }

  /** The attempt that settles the matter: the first that is not a transient failure, if it comes early enough. */
  function SettledBy(attempts: nat -> Attempt, from: nat, max: nat): (n: nat)
    requires from <= max
    ensures from <= n <= max
    ensures n < max ==> !attempts(n).FailsTransiently?
    ensures forall i :: from <= i < n ==> attempts(i).FailsTransiently?
    decreases max - from
  {
    if from == max || !attempts(from).FailsTransiently? then from else SettledBy(attempts, from + 1, max)
  }

  class StoredFile<Content> {
    var content: Content

    constructor (content: Content)
      ensures this.content == content
    {
      this.content := content;
    }

    /** WriteWithRetry: whatever happens, the file holds its old content or the new one. */
    method WriteWithRetry(newContent: Content, attempts: nat -> Attempt, maxAttempts: nat := MAX_ATTEMPTS)
      returns (outcome: Outcome, delays: seq<int>)
      requires maxAttempts >= 1
      modifies this
      ensures content == old(content) || content == newContent
      ensures var n := SettledBy(attempts, 0, maxAttempts);
              && |delays| == (if n < maxAttempts then n else maxAttempts - 1)
              && (outcome.Written? <==> n < maxAttempts && attempts(n).Succeeds?)
              && (outcome.Died? <==> n < maxAttempts && attempts(n).Dies?)
              && content == (if outcome.Written? || (outcome.Died? && attempts(n).moved) then newContent else old(content))
      ensures forall i :: 0 <= i < |delays| ==> delays[i] == DelayAfter(i)
    {
      delays := [];
      var delay, attempt := FIRST_DELAY, 0;
      while true
        invariant 0 <= attempt < maxAttempts && |delays| == attempt && delay == DelayAfter(attempt)
        invariant content == old(content)
        invariant SettledBy(attempts, 0, maxAttempts) == SettledBy(attempts, attempt, maxAttempts)
        invariant forall i :: 0 <= i < |delays| ==> delays[i] == DelayAfter(i)
        decreases maxAttempts - attempt
      {
        var a := attempts(attempt);
        if a.Succeeds? {
          content := newContent;
          return Written, delays;
        } else if a.Dies? {
          if a.moved {
            content := newContent;
          }
          return Died, delays;
        } else if a.FailsForGood? || attempt + 1 == maxAttempts {
          return GaveUp, delays;
        }
        delays := delays + [delay];
        delay, attempt := NextDelay(delay), attempt + 1;
      }
    }
  }
}
