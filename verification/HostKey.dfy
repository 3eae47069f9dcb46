/** Host-key challenges in error texts and the prompt-and-retry loop around them
    (`src/utils/hostKeyPrompt.ts`). */
module HostKey {
  import opened Wrappers
  import opened Floats
  import opened Strings

  const CHANGED_PREFIX := "HOST_KEY_CHANGED:"
  const UNKNOWN_PREFIX := "UNKNOWN_HOST_KEY:"

  /** `expected` is there for a changed key only. */
  datatype Challenge = Challenge(
    expected: Option<string>, fingerprint: string, keyType: string, hostKey: string, host: string, port: int)

  // --- Splitting at pipes ---

  function Split(payload: string, count: nat): (split: Option<seq<string>>)
    requires count > 0
    ensures split.Some? ==> |split.value| == count
  {
    if count == 1 then Some([payload])
    else
      var separator := IndexOf(payload, "|");
      if separator < 0 then None
      else
        var others := Split(payload[separator + 1..], count - 1);
        if others.None? then None else Some([payload[..separator]] + others.value)
  }

  /** A payload with too few pipes gives one empty field. */
  function Fields(payload: string, count: nat): (fields: seq<string>)
    requires count > 0
    ensures "" in fields || |fields| == count
  {
    var split := Split(payload, count);
    if split.None? then [""] else split.value
  }

  method SplitFields(payload: string, count: nat) returns (fields: seq<string>)
    requires count > 0
    ensures fields == Fields(payload, count)
  {
    hide IndexOf, Split, Prepend;
    fields := [];
    var rest := payload;
    PrependNothing(Split(payload, count));
    for index := 0 to count - 1
      invariant Split(payload, count) == Prepend(fields, Split(rest, count - index))
    {
      var separator := IndexOf(rest, "|");
      SplitFirst(fields, rest, count - index);
      if separator < 0 {
        return [""];
      }
      fields := fields + [rest[..separator]];
      rest := rest[separator + 1..];
    }
    SplitOne(fields, rest);
    fields := fields + [rest];
  }

  ghost function Prepend(fields: seq<string>, others: Option<seq<string>>): Option<seq<string>> {
    if others.None? then None else Some(fields + others.value)
  }

  lemma PrependNothing(others: Option<seq<string>>)
    ensures Prepend([], others) == others
  {
    assert others.Some? ==> [] + others.value == others.value;
  }

  lemma SplitOne(fields: seq<string>, rest: string)
    ensures Prepend(fields, Split(rest, 1)) == Some(fields + [rest])
  {
  }

  lemma SplitFirst(fields: seq<string>, rest: string, count: nat)
    requires count > 1
    ensures var separator := IndexOf(rest, "|");
      Prepend(fields, Split(rest, count)) ==
        if separator < 0 then None else Prepend(fields + [rest[..separator]], Split(rest[separator + 1..], count - 1))
  {
    hide IndexOf;
    var separator := IndexOf(rest, "|");
    if separator >= 0 {
      var others := Split(rest[separator + 1..], count - 1);
      assert others.Some? ==> fields + ([rest[..separator]] + others.value) == fields + [rest[..separator]] + others.value;
    }
  }

  function JoinFields(fields: seq<string>): string
    requires fields != []
  {
    if |fields| == 1 then fields[0] else fields[0] + "|" + JoinFields(fields[1..])
  }

  ghost predicate PipeFree(s: string) {
    '|' !in s
  }

  lemma PipeOccurs(s: string)
    ensures Contains(s, "|") <==> '|' in s
  {
    forall i: nat | i < |s| ensures OccursAt(s, "|", i) <==> s[i] == '|' {
      assert s[i..i + 1] == [s[i]];
    }
  }

  /** Splitting is exact: the fields joined by pipes are the payload, and all but the last
      are free of pipes. */
  lemma {:induction false} SplitJoins(payload: string, count: nat)
    requires count > 0 && Split(payload, count).Some?
    ensures var fields := Split(payload, count).value;
      |fields| == count && JoinFields(fields) == payload && forall i | 0 <= i < count - 1 :: PipeFree(fields[i])
  {
    if count > 1 {
      var separator := IndexOf(payload, "|");
      CutAtPipe(payload);
      var others := Split(payload[separator + 1..], count - 1).value;
      assert Split(payload, count).value == [payload[..separator]] + others;
      hide IndexOf, Split, PipeFree;
      SplitJoins(payload[separator + 1..], count - 1);
      JoinCons(payload[..separator], others);
    }
  }

  lemma CutAtPipe(payload: string)
    ensures var s := IndexOf(payload, "|");
      s >= 0 ==> payload == payload[..s] + "|" + payload[s + 1..] && PipeFree(payload[..s])
  {
    hide IndexOf;
    var s := IndexOf(payload, "|");
    if s >= 0 {
      assert payload[s..s + 1] == "|";
      forall i | 0 <= i < s ensures payload[i] != '|' {
        assert payload[i..i + 1] == [payload[i]];
        assert !OccursAt(payload, "|", i);
      }
    }
  }

  lemma JoinCons(head: string, tail: seq<string>)
    requires tail != []
    ensures JoinFields([head] + tail) == head + "|" + JoinFields(tail)
  {
    assert ([head] + tail)[1..] == tail;
  }

  lemma CutsWhereJoined(first: string, others: string)
    requires PipeFree(first)
    ensures var payload := first + "|" + others;
      IndexOf(payload, "|") == |first| && payload[..|first|] == first && payload[|first| + 1..] == others
  {
    PipeOccurs(first);
    hide IndexOf;
    FoundWherePut(first, "|", others);
  }

  lemma SplitCons(first: string, rest: string, others: seq<string>, count: nat)
    requires PipeFree(first) && count > 0 && Split(rest, count) == Some(others)
    ensures Split(first + "|" + rest, count + 1) == Some([first] + others)
  {
    CutsWhereJoined(first, rest);
    hide IndexOf, PipeFree;
  }

  /** And splitting undoes joining. */
  lemma {:induction false} JoinSplits(fields: seq<string>, count: nat)
    requires count == |fields| > 0 && forall i | 0 <= i < count - 1 :: PipeFree(fields[i])
    ensures Split(JoinFields(fields), count) == Some(fields)
  {
    hide Split, JoinFields, PipeFree;
    var first, others := fields[0], fields[1..];
    if count == 1 {
      JoinSplitsOne(first);
      assert fields == [first];
    } else {
      assert fields == [first] + others;
      forall i | 0 <= i < count - 2 ensures PipeFree(others[i]) {
        assert others[i] == fields[i + 1];
      }
      JoinSplits(others, count - 1);
      JoinCons(first, others);
      SplitCons(first, JoinFields(others), others, count - 1);
    }
  }

  lemma JoinSplitsOne(field: string)
    ensures Split(JoinFields([field]), 1) == Some([field])
  {
  }

  // --- Parsing ---

  predicate IsPort(x: Float) {
    x.Fin? && x.r == x.r.Floor as real && x.r > 0.0
  }

  function FromFields(number: string -> Float, changed: bool, fields: seq<string>): Option<Challenge>
    requires "" in fields || |fields| == if changed then 4 else 3
  {
    if "" in fields then None
    else
      var expected := if changed then Some(fields[0]) else None;
      var keys := if changed then fields[1..] else fields;
      var hostKey := keys[2];
      var portIndex := LastIndexOf(hostKey, ':');
      if portIndex <= 0 then None
      else
        var port := number(hostKey[portIndex + 1..]);
        if !IsPort(port) then None
        else Some(Challenge(expected, keys[0], keys[1], hostKey, hostKey[..portIndex], port.r.Floor))
  }

  function After(text: string, prefix: string): string
    requires Contains(text, prefix)
  {
    Trim(text[IndexOf(text, prefix) + |prefix|..])
  }

  /** `number` is the language's conversion of text to a number. */
  function ParseHostKeyChallenge(number: string -> Float, text: string): Option<Challenge> {
    if IndexOf(text, CHANGED_PREFIX) >= 0 then
      FromFields(number, true, Fields(After(text, CHANGED_PREFIX), 4))
    else if IndexOf(text, UNKNOWN_PREFIX) >= 0 then
      FromFields(number, false, Fields(After(text, UNKNOWN_PREFIX), 3))
    else None
  }

  // --- The documented format ---

  /** What follows the sentinel. */
  function Body(expected: Option<string>, fingerprint: string, keyType: string, hostKey: string): string {
    (if expected.Some? then expected.value + "|" else "") + fingerprint + "|" + keyType + "|" + hostKey
  }

  function Sentinel(expected: Option<string>): string {
    if expected.Some? then CHANGED_PREFIX else UNKNOWN_PREFIX
  }

  function BodyFields(expected: Option<string>, fingerprint: string, keyType: string, hostKey: string): seq<string> {
    (if expected.Some? then [expected.value] else []) + [fingerprint, keyType, hostKey]
  }

  lemma BodyIsJoined(expected: Option<string>, fingerprint: string, keyType: string, hostKey: string)
    ensures JoinFields(BodyFields(expected, fingerprint, keyType, hostKey)) == Body(expected, fingerprint, keyType, hostKey)
  {
    var three := [fingerprint, keyType, hostKey];
    assert [keyType] + [hostKey] == [keyType, hostKey] && [fingerprint] + [keyType, hostKey] == three;
    JoinCons(keyType, [hostKey]);
    JoinCons(fingerprint, [keyType, hostKey]);
    assert JoinFields([hostKey]) == hostKey;
    hide JoinFields;
    assert fingerprint + "|" + (keyType + "|" + hostKey) == fingerprint + "|" + keyType + "|" + hostKey;
    if expected.Some? {
      JoinCons(expected.value, three);
      assert expected.value + "|" + (fingerprint + "|" + keyType + "|" + hostKey)
          == expected.value + "|" + fingerprint + "|" + keyType + "|" + hostKey;
    } else {
      assert [] + three == three && "" + JoinFields(three) == JoinFields(three);
    }
  }

  /** `number` reads the numeral of the port as the number it is. */
  ghost predicate ReadsPort(number: string -> Float, port: nat) {
    number(Decimal(port)) == Fin(port as real)
  }

  ghost predicate IsField(s: string) {
    s != "" && PipeFree(s)
  }

  lemma HostKeySplits(host: string, port: nat)
    ensures LastIndexOf(host + ":" + Decimal(port), ':') == |host|
    ensures (host + ":" + Decimal(port))[..|host|] == host
    ensures (host + ":" + Decimal(port))[|host| + 1..] == Decimal(port)
  {
    DecimalIsDigits(port);
    hide Decimal, LastIndexOf;
    assert host + ":" == host + [':'];
    FoundLast(host, ':', Decimal(port));
  }

  lemma ReadsFields(number: string -> Float, expected: Option<string>, fingerprint: string, keyType: string, host: string, port: nat)
    requires ReadsPort(number, port) && port > 0 && IsField(fingerprint) && IsField(keyType)
    requires expected.Some? ==> IsField(expected.value)
    ensures var hostKey := host + ":" + Decimal(port);
      FromFields(number, expected.Some?, BodyFields(expected, fingerprint, keyType, hostKey)) ==
        if host == "" then None else Some(Challenge(expected, fingerprint, keyType, hostKey, host, port))
  {
    HostKeySplits(host, port);
    var hostKey := host + ":" + Decimal(port);
    var fields := BodyFields(expected, fingerprint, keyType, hostKey);
    hide Decimal, LastIndexOf, PipeFree;
    assert (if expected.Some? then fields[1..] else fields) == [fingerprint, keyType, hostKey];
    assert "" !in fields;
  }

  lemma BodyEnds(expected: Option<string>, fingerprint: string, keyType: string, host: string, port: nat)
    requires fingerprint != "" && (expected.Some? ==> expected.value != "")
    ensures var body := Body(expected, fingerprint, keyType, host + ":" + Decimal(port));
      && body != "" && !IsSpace(body[|body| - 1])
      && body[0] == if expected.Some? then expected.value[0] else fingerprint[0]
  {
    DecimalIsDigits(port);
    var digits := Decimal(port);
    hide Decimal;
    var body := Body(expected, fingerprint, keyType, host + ":" + digits);
    assert IsDigit(digits[|digits| - 1]);
    assert body[|body| - 1] == digits[|digits| - 1];
  }

  lemma AfterPut(before: string, prefix: string, lead: string, body: string, trail: string)
    requires prefix != "" && !Contains(before, prefix)
    requires forall i | 0 <= i < |prefix| - 1 :: prefix[i] != prefix[|prefix| - 1]
    requires Blank(lead) && Blank(trail) && body != "" && !IsSpace(body[0]) && !IsSpace(body[|body| - 1])
    ensures var text := before + prefix + (lead + body + trail);
      Contains(text, prefix) && After(text, prefix) == body
  {
    var rest := lead + body + trail;
    var text := before + prefix + rest;
    FoundWherePut(before, prefix, rest);
    assert text[|before| + |prefix|..] == rest;
    assert IndexOf(text, prefix) == |before|;
    Trims(lead, body, trail);
  }

  lemma SentinelEnds(expected: Option<string>)
    ensures forall i | 0 <= i < |Sentinel(expected)| - 1 :: Sentinel(expected)[i] != Sentinel(expected)[|Sentinel(expected)| - 1]
  {
  }

  /** A challenge as the backend writes it into an error: the text before the sentinel, and
      white space around the payload. */
  function Message(before: string, lead: string, trail: string,
                   expected: Option<string>, fingerprint: string, keyType: string, host: string, port: nat): string {
    before + Sentinel(expected) + (lead + Body(expected, fingerprint, keyType, host + ":" + Decimal(port)) + trail)
  }

  ghost predicate WellFormed(before: string, lead: string, trail: string,
                             expected: Option<string>, fingerprint: string, keyType: string) {
    && !Contains(before, Sentinel(expected)) && Blank(lead) && Blank(trail)
    && IsField(fingerprint) && IsField(keyType) && (expected.Some? ==> IsField(expected.value))
  }

  function FirstField(expected: Option<string>, fingerprint: string): string {
    if expected.Some? then expected.value else fingerprint
  }

  /** The payload is trimmed, so a first field that begins with white space loses it. */
  lemma LeadingSpaceIsLost(number: string -> Float, text: string, c: Challenge)
    requires c.fingerprint != "" && (c.expected.Some? ==> c.expected.value != "")
    requires IsSpace(FirstField(c.expected, c.fingerprint)[0])
    ensures ParseHostKeyChallenge(number, text) != Some(c)
  {
    hide ParseHostKeyChallenge, Sentinel, Body, After, IsSpace, IsField, Contains;
    if ParseHostKeyChallenge(number, text) == Some(c) {
      ParsedIsWritten(number, text);
      AfterStarts(text, Sentinel(c.expected));
      BodyStarts(c.expected, c.fingerprint, c.keyType, c.hostKey);
    }
  }

  lemma AfterStarts(text: string, prefix: string)
    requires Contains(text, prefix)
    ensures After(text, prefix) != "" ==> !IsSpace(After(text, prefix)[0])
  {
    TrimmedStarts(text[IndexOf(text, prefix) + |prefix|..]);
  }

  lemma BodyStarts(expected: Option<string>, fingerprint: string, keyType: string, hostKey: string)
    requires FirstField(expected, fingerprint) != ""
    ensures Body(expected, fingerprint, keyType, hostKey) != ""
    ensures Body(expected, fingerprint, keyType, hostKey)[0] == FirstField(expected, fingerprint)[0]
  {
  }

  lemma FieldsOfBody(expected: Option<string>, fingerprint: string, keyType: string, hostKey: string)
    requires PipeFree(fingerprint) && PipeFree(keyType) && (expected.Some? ==> PipeFree(expected.value))
    ensures Fields(Body(expected, fingerprint, keyType, hostKey), if expected.Some? then 4 else 3)
         == BodyFields(expected, fingerprint, keyType, hostKey)
  {
    BodyIsJoined(expected, fingerprint, keyType, hostKey);
    hide PipeFree, JoinFields, Split;
    JoinSplits(BodyFields(expected, fingerprint, keyType, hostKey), if expected.Some? then 4 else 3);
  }

  lemma MessageParts(before: string, lead: string, trail: string,
                     expected: Option<string>, fingerprint: string, keyType: string, host: string, port: nat)
    requires WellFormed(before, lead, trail, expected, fingerprint, keyType)
    requires !IsSpace(FirstField(expected, fingerprint)[0])
    ensures var hostKey := host + ":" + Decimal(port);
      var text := Message(before, lead, trail, expected, fingerprint, keyType, host, port);
      && Contains(text, Sentinel(expected))
      && Fields(After(text, Sentinel(expected)), if expected.Some? then 4 else 3)
         == BodyFields(expected, fingerprint, keyType, hostKey)
  {
    var hostKey := host + ":" + Decimal(port);
    BodyEnds(expected, fingerprint, keyType, host, port);
    SentinelEnds(expected);
    FieldsOfBody(expected, fingerprint, keyType, hostKey);
    hide Decimal, IndexOf, After, Body, BodyFields, Fields, Blank, IsSpace, PipeFree, Contains;
    var body := Body(expected, fingerprint, keyType, hostKey);
    assert Sentinel(expected) != "";
    hide Sentinel;
    AfterPut(before, Sentinel(expected), lead, body, trail);
  }

  /** Parsing undoes the documented format of a changed key, for any host, colons and pipes
      included, exactly when the host is not empty and the payload does not begin with
      white space. An empty host is refused. */
  lemma ParsesChanged(number: string -> Float, before: string, lead: string, trail: string,
                      expected: string, fingerprint: string, keyType: string, host: string, port: nat)
    requires ReadsPort(number, port) && port > 0
    requires WellFormed(before, lead, trail, Some(expected), fingerprint, keyType)
    ensures var parsed := ParseHostKeyChallenge(number, Message(before, lead, trail, Some(expected), fingerprint, keyType, host, port));
      && (parsed == Some(Challenge(Some(expected), fingerprint, keyType, host + ":" + Decimal(port), host, port))
          <==> host != "" && !IsSpace(expected[0]))
      && (host == "" && !IsSpace(expected[0]) ==> parsed == None)
  {
    var text := Message(before, lead, trail, Some(expected), fingerprint, keyType, host, port);
    if IsSpace(expected[0]) {
      LeadingSpaceIsLost(number, text, Challenge(Some(expected), fingerprint, keyType, host + ":" + Decimal(port), host, port));
    } else {
      MessageParts(before, lead, trail, Some(expected), fingerprint, keyType, host, port);
      ReadsFields(number, Some(expected), fingerprint, keyType, host, port);
      hide Decimal, IndexOf, After, Message, Fields, FromFields, BodyFields;
    }
  }

  /** The same for an unknown key, where moreover the text must not hold the other sentinel:
      a host may, and then the challenge is taken for a changed key. */
  lemma ParsesUnknown(number: string -> Float, before: string, lead: string, trail: string,
                      fingerprint: string, keyType: string, host: string, port: nat)
    requires ReadsPort(number, port) && port > 0
    requires WellFormed(before, lead, trail, None, fingerprint, keyType)
    ensures var text := Message(before, lead, trail, None, fingerprint, keyType, host, port);
      ParseHostKeyChallenge(number, text) == Some(Challenge(None, fingerprint, keyType, host + ":" + Decimal(port), host, port))
      <==> host != "" && !IsSpace(fingerprint[0]) && !Contains(text, CHANGED_PREFIX)
  {
    var text := Message(before, lead, trail, None, fingerprint, keyType, host, port);
    if IsSpace(fingerprint[0]) {
      LeadingSpaceIsLost(number, text, Challenge(None, fingerprint, keyType, host + ":" + Decimal(port), host, port));
    } else {
      MessageParts(before, lead, trail, None, fingerprint, keyType, host, port);
      ReadsFields(number, None, fingerprint, keyType, host, port);
      hide Decimal, IndexOf, After, Message, Fields, BodyFields, LastIndexOf;
    }
  }

  lemma FromFieldsIs(number: string -> Float, changed: bool, fields: seq<string>)
    requires |fields| == (if changed then 4 else 3) && FromFields(number, changed, fields).Some?
    ensures var c := FromFields(number, changed, fields).value;
      && c.expected.Some? == changed && "" !in fields
      && fields == BodyFields(c.expected, c.fingerprint, c.keyType, c.hostKey)
      && c.host != "" && c.port > 0
      && exists p :: number(p) == Fin(c.port as real) && c.hostKey == c.host + ":" + p
  {
    hide LastIndexOf;
    var c := FromFields(number, changed, fields).value;
    var p := c.hostKey[|c.host| + 1..];
    assert number(p) == Fin(c.port as real);
    assert c.hostKey == c.host + ":" + p;
  }

  lemma PayloadIsWritten(number: string -> Float, changed: bool, payload: string, count: nat)
    requires count == if changed then 4 else 3
    requires Split(payload, count).Some? && FromFields(number, changed, Split(payload, count).value).Some?
    ensures var c := FromFields(number, changed, Split(payload, count).value).value;
      && payload == Body(c.expected, c.fingerprint, c.keyType, c.hostKey)
      && IsField(c.fingerprint) && IsField(c.keyType) && (c.expected.Some? ==> IsField(c.expected.value))
  {
    var c := FromFields(number, changed, Split(payload, count).value).value;
    SplitJoins(payload, count);
    var fields := Split(payload, count).value;
    FromFieldsIs(number, changed, fields);
    hide PipeFree, FromFields, Split, JoinFields, Body;
    BodyIsJoined(c.expected, c.fingerprint, c.keyType, c.hostKey);
    var k := count - 3;
    assert fields[k] == c.fingerprint && fields[k + 1] == c.keyType && (changed ==> fields[0] == c.expected.value);
  }

  /** What is parsed was written: the payload after the sentinel is the challenge in the
      documented format, and its parts are a host, a colon and a port. */
  lemma ParsedIsWritten(number: string -> Float, text: string)
    requires ParseHostKeyChallenge(number, text).Some?
    ensures var c := ParseHostKeyChallenge(number, text).value;
      && Contains(text, Sentinel(c.expected))
      && After(text, Sentinel(c.expected)) == Body(c.expected, c.fingerprint, c.keyType, c.hostKey)
      && IsField(c.fingerprint) && IsField(c.keyType) && (c.expected.Some? ==> IsField(c.expected.value))
      && c.host != "" && c.port > 0
      && exists p :: number(p) == Fin(c.port as real) && c.hostKey == c.host + ":" + p
  {
    var changed := IndexOf(text, CHANGED_PREFIX) >= 0;
    var count := if changed then 4 else 3;
    assert Contains(text, CHANGED_PREFIX) == changed && (!changed ==> Contains(text, UNKNOWN_PREFIX));
    var payload := After(text, if changed then CHANGED_PREFIX else UNKNOWN_PREFIX);
    assert ParseHostKeyChallenge(number, text) == FromFields(number, changed, Fields(payload, count));
    assert Split(payload, count).Some?;
    hide ParseHostKeyChallenge, IndexOf, After, Body, IsField, FromFields, Split, Contains;
    PayloadIsWritten(number, changed, payload, count);
    FromFieldsIs(number, changed, Fields(payload, count));
  }

  /** A host that holds the other sentinel makes every unknown-key message hold it. */
  lemma SentinelInHost(before: string, lead: string, trail: string,
                       fingerprint: string, keyType: string, host: string, port: nat)
    requires Contains(host, CHANGED_PREFIX)
    ensures Contains(Message(before, lead, trail, None, fingerprint, keyType, host, port), CHANGED_PREFIX)
  {
    var part, digits := CHANGED_PREFIX, Decimal(port);
    var body := Body(None, fingerprint, keyType, host + ":" + digits);
    hide Decimal, Contains;
    ContainsInside("", host, ":", part);
    ContainsInside("", host + ":", digits, part);
    ContainsInside("" + fingerprint + "|" + keyType + "|", host + ":" + digits, "", part);
    ContainsInside(lead, body, trail, part);
    ContainsInside(before + UNKNOWN_PREFIX, lead + body + trail, "", part);
  }

  lemma ContainsInside(a: string, x: string, b: string, part: string)
    requires Contains(x, part)
    ensures Contains(a + x + b, part)
    ensures a == "" ==> Contains(x + b, part)
    ensures b == "" ==> Contains(a + x, part)
  {
    var i: nat :| OccursAt(x, part, i);
    var text := a + x + b;
    assert text[|a| + i..|a| + i + |part|] == x[i..i + |part|];
    assert OccursAt(text, part, |a| + i);
    assert a == "" ==> text == x + b;
    assert b == "" ==> text == a + x;
  }
}
