/** The condition across its lifetime: an administrator may submit the back-office
    form any number of times, and each submission is one call of `setValidators`. */
module Lifecycle {
  import opened Condition
  import opened MatchForGenderCondition

  /** The operator and value one form submission hands to `setValidators`. */
  datatype Submission = Submission(op: Option<string>, value: Option<string>)

  /** The stored maps after the submissions, in order, starting from `s`. */
  function Replay(s: Stored, subs: seq<Submission>): Stored
    decreases |subs|
  {
    if subs == [] then s else Replay(Apply(s, subs[0].op, subs[0].value), subs[1..])
  }

  /** The rule of the last submission that passed validation, if any did. */
  function LastAccepted(subs: seq<Submission>): Option<Rule>
    decreases |subs|
  {
    if subs == [] then None
    else
      match Validate(subs[|subs| - 1].op, subs[|subs| - 1].value)
      case Accepted(rule) => Some(rule)
      case Rejected(_) => LastAccepted(subs[..|subs| - 1])
  }

  /** Replaying one more submission applies it to the state the others left. */
  lemma {:induction false} ReplaySnoc(s: Stored, subs: seq<Submission>, x: Submission)
    ensures Replay(s, subs + [x]) == Apply(Replay(s, subs), x.op, x.value)
    decreases |subs|
  {
    if subs == [] {
      assert subs + [x] == [x];
    } else {
      assert (subs + [x])[1..] == subs[1..] + [x];
      ReplaySnoc(Apply(s, subs[0].op, subs[0].value), subs[1..], x);
    }
  }

  /** Rejected submissions change nothing and an accepted one replaces everything stored
      before it, so the state is that of the last accepted submission, or the initial
      state when none was accepted. */
  lemma {:induction false} ReplayKeepsLastAccepted(s: Stored, subs: seq<Submission>)
    ensures Replay(s, subs) == match LastAccepted(subs)
                               case None => s
                               case Some(rule) => Store(rule)
    decreases |subs|
  {
    if subs != [] {
      var init, x := subs[..|subs| - 1], subs[|subs| - 1];
      assert subs == init + [x];
      ReplaySnoc(s, init, x);
      ReplayKeepsLastAccepted(s, init);
    }
  }

  /** Whatever the submissions, the condition stays in one of its reachable states. */
  lemma {:induction false} ReplayPreservesWellFormed(s: Stored, subs: seq<Submission>)
    requires WellFormed(s)
    ensures WellFormed(Replay(s, subs))
    decreases |subs|
  {
    if subs != [] {
      ReplayPreservesWellFormed(Apply(s, subs[0].op, subs[0].value), subs[1..]);
    }
  }

  /** The last accepted submission of two batches is that of the second batch when it
      has one, and otherwise that of the first. */
  lemma {:induction false} LastAcceptedAppend(a: seq<Submission>, b: seq<Submission>)
    ensures LastAccepted(a + b) == if LastAccepted(b).Some? then LastAccepted(b) else LastAccepted(a)
    decreases |b|
  {
    if b == [] {
      assert a + b == a;
    } else {
      var n := |b|;
      assert (a + b)[|a + b| - 1] == b[n - 1];
      assert (a + b)[..|a + b| - 1] == a + b[..n - 1];
      LastAcceptedAppend(a, b[..n - 1]);
    }
  }

  /** Submitting the same forms a second time leaves the state the first round left. */
  lemma ReplayTwiceIsOnce(s: Stored, subs: seq<Submission>)
    ensures Replay(s, subs + subs) == Replay(s, subs)
  {
    ReplayKeepsLastAccepted(s, subs + subs);
    ReplayKeepsLastAccepted(s, subs);
    LastAcceptedAppend(subs, subs);
  }

  /** Once some submission has been accepted, the condition stays configured and can be
      evaluated, whatever is submitted afterwards. */
  lemma ConfiguredStaysConfigured(s: Stored, subs: seq<Submission>)
    requires LastAccepted(subs).Some?
    ensures Configured(Replay(s, subs))
    ensures Replay(s, subs).values[INPUT1] == LastAccepted(subs).value.value
  {
    ReplayKeepsLastAccepted(s, subs);
    LastAcceptedIsValid(subs);
  }

  /** Every accepted rule is equality with one of the two genders. */
  lemma {:induction false} LastAcceptedIsValid(subs: seq<Submission>)
    ensures LastAccepted(subs).Some? ==>
              LastAccepted(subs).value.op == EQUAL &&
              LastAccepted(subs).value.value in {GENDER_MAN, GENDER_WOMAN}
    decreases |subs|
  {
    if subs != [] {
      LastAcceptedIsValid(subs[..|subs| - 1]);
    }
  }
}
