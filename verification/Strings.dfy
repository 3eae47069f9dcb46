/** The string operations of JavaScript that the parsers use. */
module Strings {
  predicate OccursAt(text: string, part: string, i: nat) {
    i + |part| <= |text| && text[i..i + |part|] == part
  }

  ghost predicate Contains(text: string, part: string) {
    exists i: nat :: OccursAt(text, part, i)
  }

  function IndexFrom(text: string, part: string, from: nat): (r: int)
    ensures r == -1 || (from <= r && OccursAt(text, part, r))
    ensures forall i: nat | from <= i && OccursAt(text, part, i) :: r != -1 && r <= i
    decreases |text| - from
  {
    if from + |part| > |text| then -1
    else if OccursAt(text, part, from) then from
    else IndexFrom(text, part, from + 1)
  }

  /** `text.indexOf(part)`. */
  function IndexOf(text: string, part: string): (r: int)
    ensures r == -1 <==> !Contains(text, part)
    ensures r != -1 ==> 0 <= r && OccursAt(text, part, r)
    ensures forall i: nat | OccursAt(text, part, i) :: r <= i
  {
    IndexFrom(text, part, 0)
  }

  /** `text.includes(part)`. */
  predicate Includes(text: string, part: string)
    ensures Includes(text, part) <==> Contains(text, part)
  {
    IndexOf(text, part) != -1
  }

  /** `text.lastIndexOf(c)` for a single character. */
  function LastIndexOf(text: string, c: char): (r: int)
    ensures r == -1 ==> c !in text
    ensures r != -1 ==> 0 <= r < |text| && text[r] == c && c !in text[r + 1..]
  {
    if text == "" then -1
    else
      var n := |text| - 1;
      if text[n] == c then n else LastIndexOf(text[..n], c)
  }

  /** White space as `trim` understands it. */
  predicate IsSpace(c: char) {
    var u := c as int;
    9 <= u <= 13 || u in {32, 0xA0, 0x1680, 0x2028, 0x2029, 0x202F, 0x205F, 0x3000, 0xFEFF} || 0x2000 <= u <= 0x200A
  }

  function TrimStart(text: string): string {
    if text != "" && IsSpace(text[0]) then TrimStart(text[1..]) else text
  }

  function TrimEnd(text: string): string {
    if text != "" && IsSpace(text[|text| - 1]) then TrimEnd(text[..|text| - 1]) else text
  }

  function Trim(text: string): string {
    TrimEnd(TrimStart(text))
  }

  ghost predicate Blank(text: string) {
    forall i | 0 <= i < |text| :: IsSpace(text[i])
  }

  lemma {:induction false} TrimsStart(lead: string, body: string)
    requires Blank(lead) && body != "" && !IsSpace(body[0])
    ensures TrimStart(lead + body) == body
  {
    if lead == "" {
      assert lead + body == body;
    } else {
      assert (lead + body)[1..] == lead[1..] + body;
      TrimsStart(lead[1..], body);
    }
  }

  lemma {:induction false} TrimsEnd(body: string, trail: string)
    requires Blank(trail) && body != "" && !IsSpace(body[|body| - 1])
    ensures TrimEnd(body + trail) == body
  {
    if trail == "" {
      assert body + trail == body;
    } else {
      var n := |trail| - 1;
      assert (body + trail)[..|body| + n] == body + trail[..n];
      TrimsEnd(body, trail[..n]);
    }
  }

  /** Trimming takes the white space off both ends and nothing else. */
  lemma Trims(lead: string, body: string, trail: string)
    requires Blank(lead) && Blank(trail) && body != "" && !IsSpace(body[0]) && !IsSpace(body[|body| - 1])
    ensures Trim(lead + body + trail) == body
  {
    assert lead + body + trail == lead + (body + trail);
    TrimsStart(lead, body + trail);
    TrimsEnd(body, trail);
  }

  lemma {:induction false} TrimStartStarts(text: string)
    ensures TrimStart(text) != "" ==> !IsSpace(TrimStart(text)[0])
  {
    if text != "" {
      TrimStartStarts(text[1..]);
    }
  }

  lemma {:induction false} TrimEndKeepsStart(text: string)
    ensures TrimEnd(text) != "" ==> text != "" && TrimEnd(text)[0] == text[0]
  {
    if text != "" {
      TrimEndKeepsStart(text[..|text| - 1]);
    }
  }

  /** Trimmed text does not begin with white space. */
  lemma TrimmedStarts(text: string)
    ensures Trim(text) != "" ==> !IsSpace(Trim(text)[0])
  {
    TrimStartStarts(text);
    TrimEndKeepsStart(TrimStart(text));
  }

  /** A part whose last character is nowhere else in it is first found where it was put, if
      what comes before does not contain it. */
  lemma FoundWherePut(before: string, part: string, after: string)
    requires part != "" && !Contains(before, part)
    requires forall i | 0 <= i < |part| - 1 :: part[i] != part[|part| - 1]
    ensures IndexOf(before + part + after, part) == |before|
  {
    var text := before + part + after;
    assert OccursAt(text, part, |before|);
    forall i: nat | i < |before| && i + |part| <= |text| ensures !OccursAt(text, part, i) {
      var end := i + |part| - 1;
      assert text[i..i + |part|][|part| - 1] == text[end];
      if end < |before| {
        assert before[i..i + |part|] == text[i..i + |part|];
        assert !OccursAt(before, part, i);
      } else {
        assert text[end] == part[end - |before|];
      }
    }
  }

  lemma {:induction false} FoundLast(before: string, c: char, after: string)
    requires c !in after
    ensures LastIndexOf(before + [c] + after, c) == |before|
  {
    if after != "" {
      var m := |after| - 1;
      FoundLast(before, c, after[..m]);
      assert (before + [c] + after)[..|before| + 1 + m] == before + [c] + after[..m];
    }
  }

  // --- Decimal numerals ---

  function Digit(d: nat): char
    requires d < 10
  {
    "0123456789"[d]
  }

  function Decimal(n: nat): string {
    if n < 10 then [Digit(n)] else Decimal(n / 10) + [Digit(n % 10)]
  }

  predicate IsDigit(c: char) {
    '0' <= c <= '9'
  }

  lemma {:induction false} DecimalIsDigits(n: nat)
    ensures Decimal(n) != "" && forall c | c in Decimal(n) :: IsDigit(c)
  {
    if n >= 10 {
      DecimalIsDigits(n / 10);
    }
  }
}
