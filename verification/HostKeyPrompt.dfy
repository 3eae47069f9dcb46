/** The loop that prompts for a host key and tries again (`withHostKeyPrompt` in
    `src/utils/hostKeyPrompt.ts`). */
module HostKeyPrompt {
  import opened Wrappers
  import opened HostKey

  const MAX_HOST_KEY_PROMPTS := 3

  /** `HostKey.ParseHostKeyChallenge`, once told how text becomes a number; nothing below
      depends on which errors it takes for a challenge. */
  type Parser = string -> Option<Challenge>

  datatype Call = Act | Ask(challenge: Challenge) | Trust(challenge: Challenge)

  /** How each call would go: `action(k)`, `confirm(k)` and `trust(k)` are the results of the
      calls in round `k`. */
  datatype World<!T> = World(
    action: nat -> Result<T, string>, confirm: nat -> Result<bool, string>, trust: nat -> Result<(), string>)

  datatype Outcome<T> =
    | Done(value: T)
    | Failed(error: string)           // of the action
    | Declined(challenge: Challenge)
    | AskFailed(error: string)
    | TrustFailed(error: string)

  ghost function ChallengeOf<T>(parse: Parser, world: World<T>, k: nat): Option<Challenge> {
    if world.action(k).Err? then parse(world.action(k).error) else None
  }

  /** Round `k` ends in another try: the action failed for a host key, the user agreed, and
      the key was stored. */
  ghost predicate TriesAgain<T>(parse: Parser, world: World<T>, k: nat) {
    ChallengeOf(parse, world, k).Some? && world.confirm(k) == Ok(true) && world.trust(k).Ok?
  }

  ghost predicate TriedAgain<T>(parse: Parser, world: World<T>, n: nat) {
    n == 0 || (TriedAgain(parse, world, n - 1) && TriesAgain(parse, world, n - 1))
  }

  function Asked(before: seq<Call>, c: Challenge): seq<Call> {
    before + [Act] + [Ask(c)]
  }

  /** The calls of the first `n` rounds. */
  ghost function Rounds<T>(parse: Parser, world: World<T>, n: nat): seq<Call>
    requires TriedAgain(parse, world, n)
  {
    if n == 0 then []
    else
      var c := ChallengeOf(parse, world, n - 1).value;
      Asked(Rounds(parse, world, n - 1), c) + [Trust(c)]
  }

  /** `calls` and `outcome` are those of a run that tried again `n` times. */
  ghost predicate IsRun<T>(parse: Parser, world: World<T>, n: nat, outcome: Outcome<T>, calls: seq<Call>) {
    && n <= MAX_HOST_KEY_PROMPTS
    && TriedAgain(parse, world, n)
    && var before := Rounds(parse, world, n);
    var c := ChallengeOf(parse, world, n);
    match outcome
    case Done(value) => calls == before + [Act] && world.action(n) == Ok(value)
    case Failed(error) => calls == before + [Act] && world.action(n) == Err(error) && (c.None? || n == MAX_HOST_KEY_PROMPTS)
    case Declined(challenge) =>
      n < MAX_HOST_KEY_PROMPTS && c == Some(challenge) && calls == Asked(before, challenge) && world.confirm(n) == Ok(false)
    case AskFailed(error) =>
      n < MAX_HOST_KEY_PROMPTS && c.Some? && calls == Asked(before, c.value) && world.confirm(n) == Err(error)
    case TrustFailed(error) =>
      && n < MAX_HOST_KEY_PROMPTS && c.Some? && calls == Asked(before, c.value) + [Trust(c.value)]
      && world.confirm(n) == Ok(true) && world.trust(n) == Err(error)
  }

  method WithHostKeyPrompt<T>(parse: Parser, world: World<T>)
    returns (attempt: nat, outcome: Outcome<T>, calls: seq<Call>)
    ensures IsRun(parse, world, attempt, outcome, calls)
  {
    attempt := 0;
    calls := [];
    while true
      invariant attempt <= MAX_HOST_KEY_PROMPTS
      invariant TriedAgain(parse, world, attempt)
      invariant calls == Rounds(parse, world, attempt)
      decreases MAX_HOST_KEY_PROMPTS - attempt
    {
      calls := calls + [Act];
      match world.action(attempt)
      case Ok(value) => return attempt, Done(value), calls;
      case Err(error) =>
        var challenge := parse(error);
        if challenge.None? || attempt >= MAX_HOST_KEY_PROMPTS {
          return attempt, Failed(error), calls;
        }
        calls := calls + [Ask(challenge.value)];
        match world.confirm(attempt) {
          case Err(problem) => return attempt, AskFailed(problem), calls;
          case Ok(trusted) =>
            if !trusted {
              return attempt, Declined(challenge.value), calls;
            }
        }
        calls := calls + [Trust(challenge.value)];
        if world.trust(attempt).Err? {
          return attempt, TrustFailed(world.trust(attempt).error), calls;
        }
        attempt := attempt + 1;
    }
  }

  function CountIf(calls: seq<Call>, acts: bool): nat {
    if calls == [] then 0
    else
      var last := calls[|calls| - 1];
      CountIf(calls[..|calls| - 1], acts) + if (if acts then last.Act? else last.Ask?) then 1 else 0
  }

  lemma CountSnoc(calls: seq<Call>, call: Call, acts: bool)
    ensures CountIf(calls + [call], acts) == CountIf(calls, acts) + if (if acts then call.Act? else call.Ask?) then 1 else 0
  {
    assert (calls + [call])[..|calls|] == calls;
  }

  lemma AskedCount(before: seq<Call>, c: Challenge, acts: bool)
    ensures CountIf(before + [Act], acts) == CountIf(before, acts) + if acts then 1 else 0
    ensures CountIf(Asked(before, c), acts) == CountIf(before, acts) + 1
    ensures CountIf(Asked(before, c) + [Trust(c)], acts) == CountIf(before, acts) + 1
  {
    hide CountIf;
    CountSnoc(before, Act, acts);
    CountSnoc(before + [Act], Ask(c), acts);
    CountSnoc(Asked(before, c), Trust(c), acts);
  }

  lemma {:induction false} RoundsCount<T>(parse: Parser, world: World<T>, n: nat, acts: bool)
    requires TriedAgain(parse, world, n)
    ensures CountIf(Rounds(parse, world, n), acts) == n
  {
    if n > 0 {
      hide CountIf, Asked;
      RoundsCount(parse, world, n - 1, acts);
      AskedCount(Rounds(parse, world, n - 1), ChallengeOf(parse, world, n - 1).value, acts);
    } else {
      assert CountIf([], acts) == 0;
    }
  }

  /** Whatever happens, the action runs at most four times and the user is asked at most
      three times: once for each time the action was tried again, and once more when the
      run ends with a question. */
  lemma AtMostFourTries<T>(parse: Parser, world: World<T>, n: nat, outcome: Outcome<T>, calls: seq<Call>)
    requires IsRun(parse, world, n, outcome, calls)
    ensures CountIf(calls, true) == n + 1 <= 4
    ensures CountIf(calls, false) == (if outcome.Done? || outcome.Failed? then n else n + 1) <= 3
  {
    var before, c := Rounds(parse, world, n), ChallengeOf(parse, world, n);
    RoundsCount(parse, world, n, true);
    RoundsCount(parse, world, n, false);
    hide Rounds, CountIf, ChallengeOf, Asked, TriedAgain;
    if outcome.Done? || outcome.Failed? {
      CountSnoc(before, Act, true);
      CountSnoc(before, Act, false);
    } else {
      AskedCount(before, c.value, true);
      AskedCount(before, c.value, false);
    }
  }

  /** Each call in its place: a try again follows the storing of a key, a key is stored right
      after the user was asked about it, and the question follows a try that failed for it. */
  predicate InPlace(before: seq<Call>, call: Call) {
    match call
    case Act => before != [] ==> before[|before| - 1].Trust?
    case Ask(c) => before != [] && before[|before| - 1] == Act
    case Trust(c) => before != [] && before[|before| - 1] == Ask(c)
  }

  predicate InOrder(calls: seq<Call>) {
    forall i | 0 <= i < |calls| :: InPlace(calls[..i], calls[i])
  }

  lemma InOrderSnoc(calls: seq<Call>, call: Call)
    requires InOrder(calls) && InPlace(calls, call)
    ensures InOrder(calls + [call])
  {
    hide InPlace;
    var longer := calls + [call];
    forall i | 0 <= i < |longer| ensures InPlace(longer[..i], longer[i]) {
      assert longer[..i] == calls[..i];
      assert calls[..|calls|] == calls;
    }
  }

  lemma AskedInOrder(before: seq<Call>, c: Challenge)
    requires InOrder(before) && (before != [] ==> before[|before| - 1].Trust?)
    ensures InOrder(before + [Act]) && InOrder(Asked(before, c)) && InOrder(Asked(before, c) + [Trust(c)])
  {
    hide InOrder;
    InOrderSnoc(before, Act);
    InOrderSnoc(before + [Act], Ask(c));
    InOrderSnoc(Asked(before, c), Trust(c));
  }

  lemma {:induction false} RoundsInOrder<T>(parse: Parser, world: World<T>, n: nat)
    requires TriedAgain(parse, world, n)
    ensures InOrder(Rounds(parse, world, n)) && EndsStored(Rounds(parse, world, n))
  {
    hide InOrder, EndsStored, ChallengeOf, Asked;
    if n == 0 {
      NoRounds();
    } else {
      RoundsInOrder(parse, world, n - 1);
      var before, c := Rounds(parse, world, n - 1), ChallengeOf(parse, world, n - 1).value;
      RoundInOrder(before, c);
    }
  }

  predicate EndsStored(calls: seq<Call>) {
    calls != [] ==> calls[|calls| - 1].Trust?
  }

  lemma NoRounds()
    ensures InOrder([]) && EndsStored([])
  {
  }

  lemma RoundInOrder(before: seq<Call>, c: Challenge)
    requires InOrder(before) && EndsStored(before)
    ensures InOrder(Asked(before, c) + [Trust(c)]) && EndsStored(Asked(before, c) + [Trust(c)])
  {
    hide InOrder;
    AskedInOrder(before, c);
  }

  /** In every run each further try follows the storing of the key that the try before it
      failed for, after the user agreed to exactly that key. */
  lemma TriesFollowTrust<T>(parse: Parser, world: World<T>, n: nat, outcome: Outcome<T>, calls: seq<Call>)
    requires IsRun(parse, world, n, outcome, calls)
    ensures InOrder(calls)
  {
    var before, c := Rounds(parse, world, n), ChallengeOf(parse, world, n);
    RoundsInOrder(parse, world, n);
    hide ChallengeOf, InOrder, Rounds, TriedAgain, Asked;
    if outcome.Done? || outcome.Failed? {
      InOrderSnoc(before, Act);
    } else {
      AskedInOrder(before, c.value);
    }
  }

  /** The key stored by call `i` is that of the challenge the action met in the same round, and
      the user had agreed to it there. */
  ghost predicate Agreed<T>(parse: Parser, world: World<T>, calls: seq<Call>, i: nat)
    requires i < |calls|
  {
    var asked := CountIf(calls[..i], false);
    calls[i].Trust? ==>
      && asked > 0 && world.confirm(asked - 1) == Ok(true)
      && world.action(asked - 1).Err? && parse(world.action(asked - 1).error) == Some(calls[i].challenge)
  }

  ghost predicate AllAgreed<T>(parse: Parser, world: World<T>, calls: seq<Call>) {
    forall i: nat | i < |calls| :: Agreed(parse, world, calls, i)
  }

  lemma AgreedSnoc<T>(parse: Parser, world: World<T>, calls: seq<Call>, call: Call)
    requires AllAgreed(parse, world, calls)
    requires var asked := CountIf(calls, false); call.Trust? ==>
      && asked > 0 && world.confirm(asked - 1) == Ok(true)
      && world.action(asked - 1).Err? && parse(world.action(asked - 1).error) == Some(call.challenge)
    ensures AllAgreed(parse, world, calls + [call])
  {
    var longer := calls + [call];
    hide CountIf;
    forall i: nat | i < |longer| ensures Agreed(parse, world, longer, i) {
      if i < |calls| {
        assert Agreed(parse, world, calls, i) && longer[..i] == calls[..i];
      } else {
        assert longer[..i] == calls;
      }
    }
  }

  lemma RoundAgreed<T>(parse: Parser, world: World<T>, before: seq<Call>, n: nat, c: Challenge)
    requires AllAgreed(parse, world, before) && CountIf(before, false) == n && ChallengeOf(parse, world, n) == Some(c)
    ensures AllAgreed(parse, world, before + [Act]) && AllAgreed(parse, world, Asked(before, c))
    ensures world.confirm(n) == Ok(true) ==> AllAgreed(parse, world, Asked(before, c) + [Trust(c)])
  {
    AskedCount(before, c, false);
    hide CountIf, AllAgreed;
    AgreedSnoc(parse, world, before, Act);
    AgreedSnoc(parse, world, before + [Act], Ask(c));
    if world.confirm(n) == Ok(true) {
      AgreedSnoc(parse, world, Asked(before, c), Trust(c));
    }
  }

  lemma {:induction false} RoundsAgreed<T>(parse: Parser, world: World<T>, n: nat)
    requires TriedAgain(parse, world, n)
    ensures AllAgreed(parse, world, Rounds(parse, world, n))
  {
    if n > 0 {
      RoundsAgreed(parse, world, n - 1);
      RoundsCount(parse, world, n - 1, false);
      hide AllAgreed, CountIf;
      RoundAgreed(parse, world, Rounds(parse, world, n - 1), n - 1, ChallengeOf(parse, world, n - 1).value);
    }
  }

  /** In every run, a key is stored only if the user agreed to that very key, which the action
      had just failed for. */
  lemma StoredWithConsent<T>(parse: Parser, world: World<T>, n: nat, outcome: Outcome<T>, calls: seq<Call>)
    requires IsRun(parse, world, n, outcome, calls)
    ensures AllAgreed(parse, world, calls)
  {
    var before, c := Rounds(parse, world, n), ChallengeOf(parse, world, n);
    RoundsAgreed(parse, world, n);
    RoundsCount(parse, world, n, false);
    hide ChallengeOf, AllAgreed, Rounds, TriedAgain, Asked, CountIf;
    if outcome.Done? || outcome.Failed? {
      AgreedSnoc(parse, world, before, Act);
    } else {
      RoundAgreed(parse, world, before, n, c.value);
    }
  }
}

/** The errors a background reconnect gives up on (`isPermanentReconnectError` in
    `src/hooks/useAutoReconnect.ts`). */
module PermanentErrors {
  import opened Floats
  import opened Strings
  import opened HostKey

  /** `text.toLowerCase()`, character by character. */
  function Lower(lower: char -> string, text: string): string {
    if text == "" then "" else Lower(lower, text[..|text| - 1]) + lower(text[|text| - 1])
  }

  /** The test on the error in lower case. */
  predicate IsPermanentText(text: string) {
    || Includes(text, "unknown_host_key:")
    || Includes(text, "host_key_changed:")
    || Includes(text, "interactive_auth_required:")
    || Includes(text, "authentication")
    || Includes(text, "no longer exists")
    || Includes(text, "vault is locked")
  }

  predicate IsPermanentReconnectError(lower: char -> string, error: string) {
    IsPermanentText(Lower(lower, error))
  }

  // --- Which errors these are ---

  /** Prompts for a host key or a sign-in, refused credentials, a deleted profile, a locked
      vault. */
  const FINAL_PHRASES := {
    "unknown_host_key:", "host_key_changed:", "interactive_auth_required:", "authentication", "no longer exists", "vault is locked"}

  /** The phrase stands in the error at `i`, in whatever case. */
  predicate StandsAt(lower: char -> string, error: string, phrase: string, i: nat) {
    i + |phrase| <= |error| && forall k | 0 <= k < |phrase| :: lower(error[i + k]) == [phrase[k]]
  }

  lemma {:induction false} LowerAt(lower: char -> string, error: string)
    requires forall c | c in error :: |lower(c)| == 1
    ensures |Lower(lower, error)| == |error|
    ensures forall i | 0 <= i < |error| :: [Lower(lower, error)[i]] == lower(error[i])
  {
    if error != "" {
      LowerAt(lower, error[..|error| - 1]);
    }
  }

  lemma StandsIsOccurs(lower: char -> string, error: string, phrase: string)
    requires forall c | c in error :: |lower(c)| == 1
    ensures Contains(Lower(lower, error), phrase) <==> exists i: nat :: StandsAt(lower, error, phrase, i)
  {
    var text := Lower(lower, error);
    LowerAt(lower, error);
    hide Lower;
    if i: nat :| OccursAt(text, phrase, i) {
      forall k | 0 <= k < |phrase| ensures lower(error[i + k]) == [phrase[k]] {
        assert text[i..i + |phrase|][k] == phrase[k];
        assert [text[i + k]] == lower(error[i + k]);
      }
      assert StandsAt(lower, error, phrase, i);
    }
    if i: nat :| StandsAt(lower, error, phrase, i) {
      forall k | 0 <= k < |phrase| ensures text[i + k] == phrase[k] {
        assert [text[i + k]] == lower(error[i + k]);
      }
      assert text[i..i + |phrase|] == phrase;
      assert OccursAt(text, phrase, i);
    }
  }

  /** An error is one to give up on exactly if one of these phrases stands in it, in whatever
      case; of characters whose lower case is a single character. */
  lemma PermanentIs(lower: char -> string, error: string)
    requires forall c | c in error :: |lower(c)| == 1
    ensures IsPermanentReconnectError(lower, error)
       <==> exists phrase, i: nat :: phrase in FINAL_PHRASES && StandsAt(lower, error, phrase, i)
  {
    forall phrase | phrase in FINAL_PHRASES
      ensures Contains(Lower(lower, error), phrase) <==> exists i: nat :: StandsAt(lower, error, phrase, i)
    {
      StandsIsOccurs(lower, error, phrase);
    }
    PhrasesAre(Lower(lower, error));
    hide StandsAt, Contains, Lower, FINAL_PHRASES, IsPermanentText;
  }

  lemma PhrasesAre(text: string)
    ensures IsPermanentText(text) <==> exists phrase :: phrase in FINAL_PHRASES && Contains(text, phrase)
  {
    hide Contains;
  }

  lemma LowerSnoc(lower: char -> string, text: string, c: char)
    ensures Lower(lower, text + [c]) == Lower(lower, text) + lower(c)
  {
    assert (text + [c])[..|text|] == text;
  }

  lemma LowerNothing(lower: char -> string)
    ensures Lower(lower, "") == ""
  {
  }

  lemma {:induction false} LowerJoins(lower: char -> string, a: string, b: string)
    ensures Lower(lower, a + b) == Lower(lower, a) + Lower(lower, b)
  {
    LowerNothing(lower);
    hide Lower;
    if b == "" {
      assert a + b == a;
    } else {
      var front, last := b[..|b| - 1], b[|b| - 1];
      LowerJoins(lower, a, front);
      LowerSnoc(lower, front, last);
      LowerSnoc(lower, a + front, last);
      assert front + [last] == b && a + front + [last] == a + b;
    }
  }

  lemma LowerContains(lower: char -> string, text: string, part: string)
    requires Contains(text, part)
    ensures Contains(Lower(lower, text), Lower(lower, part))
  {
    var i: nat :| OccursAt(text, part, i);
    var a, b := text[..i], text[i + |part|..];
    assert text == a + part + b;
    LowerJoins(lower, a + part, b);
    LowerJoins(lower, a, part);
    var whole, low, at := Lower(lower, text), Lower(lower, part), |Lower(lower, a)|;
    assert whole == Lower(lower, a) + low + Lower(lower, b);
    hide Lower;
    assert whole[at..at + |low|] == low;
    assert OccursAt(whole, low, at);
  }

  /** Every error that would raise a host-key prompt is one a background reconnect gives up
      on, so a retry never meets the prompt. */
  lemma ChallengesArePermanent(number: string -> Float, lower: char -> string, error: string)
    requires Lower(lower, UNKNOWN_PREFIX) == "unknown_host_key:" && Lower(lower, CHANGED_PREFIX) == "host_key_changed:"
    requires ParseHostKeyChallenge(number, error).Some?
    ensures IsPermanentReconnectError(lower, error)
  {
    if Contains(error, CHANGED_PREFIX) {
      LowerContains(lower, error, CHANGED_PREFIX);
    } else {
      LowerContains(lower, error, UNKNOWN_PREFIX);
    }
  }
}
