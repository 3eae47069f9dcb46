/** `shellQuote` (`src/utils/shellQuote.ts`) and the commands typed with it
    (`src/components/TerminalPane.tsx`), against a reader of shell words that follows
    sections 2.2.1 (escape character), 2.2.2 (single-quotes) and 2.3 (token recognition) of
    the Shell Command Language, POSIX.1-2017 XCU chapter 2. */
module ShellQuote {
  import opened Wrappers

  /** Each single quote replaced by: close the quotes, an escaped quote, open them again. */
  function ReplaceQuotes(v: string): string {
    if v == "" then ""
    else (if v[0] == '\'' then "'\\''" else [v[0]]) + ReplaceQuotes(v[1..])
  }

  function ShellQuote(value: string): string {
    "'" + ReplaceQuotes(value) + "'"
  }

  // --- A reader of shell words ---

  predicate IsBlank(c: char) {
    c == ' ' || c == '\t'
  }

  /** Characters that end a word when they are not quoted. */
  predicate IsDelimiter(c: char) {
    IsBlank(c) || c == '\n' || c == '|' || c == '&' || c == ';' || c == '<' || c == '>' || c == '(' || c == ')'
  }

  /** Characters that may stand for something else than themselves wherever they are not
      quoted: expansions, double quotes and patterns (sections 2.2.3, 2.6 and 2.13). */
  predicate IsActive(c: char) {
    c == '$' || c == '`' || c == '\"' || c == '*' || c == '?' || c == '['
  }

  /** Characters that do so at the start of a word only: a comment and a home directory
      (sections 2.3 and 2.6.1). */
  predicate IsActiveFirst(c: char) {
    c == '#' || c == '~'
  }

  /** What reading one word finds: the word after quote removal and what is left; quoting
      that never ends; or an active character. */
  datatype Read = Word(value: string, rest: string) | Unterminated | Active

  function Unquoted(s: string, word: string): Read
    decreases |s|
  {
    if s == "" || IsDelimiter(s[0]) then Word(word, s)
    else if s[0] == '\'' then Quoted(s[1..], word)
    else if s[0] == '\\' then
      if |s| == 1 then Unterminated
      else if s[1] == '\n' then Unquoted(s[2..], word)
      else Unquoted(s[2..], word + [s[1]])
    else if IsActive(s[0]) then Active
    else Unquoted(s[1..], word + [s[0]])
  }

  function Quoted(s: string, word: string): Read
    decreases |s|
  {
    if s == "" then Unterminated
    else if s[0] == '\'' then Unquoted(s[1..], word)
    else Quoted(s[1..], word + [s[0]])
  }

  lemma {:induction false} RestIsShorter(s: string, word: string)
    ensures Unquoted(s, word).Word? ==> |Unquoted(s, word).rest| <= |s|
    ensures Quoted(s, word).Word? ==> |Quoted(s, word).rest| <= |s|
    ensures s != "" && !IsDelimiter(s[0]) && Unquoted(s, word).Word? ==> |Unquoted(s, word).rest| < |s|
    decreases |s|
  {
    if s == "" {
    } else {
      RestIsShorter(s[1..], word);
      RestIsShorter(s[1..], word + [s[0]]);
      if |s| > 1 {
        RestIsShorter(s[2..], word);
        RestIsShorter(s[2..], word + [s[1]]);
      }
    }
  }

  /** The words of a command that has no operators and nothing active. */
  function Words(s: string): Option<seq<string>>
    decreases |s|
  {
    if s == "" then Some([])
    else if IsBlank(s[0]) then Words(s[1..])
    else if IsDelimiter(s[0]) || IsActiveFirst(s[0]) then None
    else
      var first := Unquoted(s, "");
      RestIsShorter(s, "");
      if !first.Word? then None
      else
        var others := Words(first.rest);
        if others.None? then None else Some([first.value] + others.value)
  }

  // --- Round trips ---

  lemma QuotedChar(s: string, c: char, s': string, word: string)
    requires s == [c] + s'
    ensures Quoted(s, word) == if c == '\'' then Unquoted(s', word) else Quoted(s', word + [c])
  {
    assert s[1..] == s';
  }

  lemma EscapedQuote(s': string, word: string)
    ensures Quoted("'\\''" + s', word) == Quoted(s', word + "'")
  {
    var s2 := "'" + s';
    var s1 := "\\'" + s2;
    assert "'\\''" + s' == ['\''] + s1;
    QuotedChar("'\\''" + s', '\'', s1, word);
    assert s1[2..] == s2;
    assert Unquoted(s1, word) == Unquoted(s2, word + "'");
    assert s2[1..] == s';
  }

  lemma {:induction false} ReadsBack(v: string, rest: string, word: string)
    ensures Quoted(ReplaceQuotes(v) + "'" + rest, word) == Unquoted(rest, word + v)
  {
    hide Quoted, Unquoted;
    var s := ReplaceQuotes(v) + "'" + rest;
    if v == "" {
      assert s == ['\''] + rest && word + v == word;
      QuotedChar(s, '\'', rest, word);
    } else {
      var s' := ReplaceQuotes(v[1..]) + "'" + rest;
      ReadsBack(v[1..], rest, word + [v[0]]);
      assert word + [v[0]] + v[1..] == word + v;
      if v[0] == '\'' {
        assert s == "'\\''" + s';
        EscapedQuote(s', word);
      } else {
        assert s == [v[0]] + s';
        QuotedChar(s, v[0], s', word);
      }
    }
  }

  /** For every string, the quoted form is read to its end as one word and yields the
      string; what follows a delimiter is left alone. */
  lemma QuotedIsOneWord(v: string, rest: string)
    requires rest == "" || IsDelimiter(rest[0])
    ensures Unquoted(ShellQuote(v) + rest, "") == Word(v, rest)
  {
    var s, body := ShellQuote(v) + rest, ReplaceQuotes(v) + "'" + rest;
    assert s[0] == '\'' && s[1..] == body;
    assert Unquoted(s, "") == Quoted(body, "");
    assert Unquoted(rest, v) == Word(v, rest);
    hide Unquoted, Quoted, ReplaceQuotes;
    ReadsBack(v, rest, "");
    assert "" + v == v;
  }

  lemma QuotedComesFirst(v: string, rest: string)
    requires rest == "" || IsDelimiter(rest[0])
    ensures Words(ShellQuote(v) + rest) == if Words(rest).Some? then Some([v] + Words(rest).value) else None
  {
    QuotedIsOneWord(v, rest);
    hide Unquoted, Quoted, ReplaceQuotes;
    assert (ShellQuote(v) + rest)[0] == '\'';
  }

  lemma {:induction false} ReadOn(s: string, tail: string, word: string)
    requires tail == "" || IsDelimiter(tail[0])
    ensures Unquoted(s, word).Word? ==> Unquoted(s + tail, word) == Word(Unquoted(s, word).value, Unquoted(s, word).rest + tail)
    ensures Quoted(s, word).Word? ==> Quoted(s + tail, word) == Word(Quoted(s, word).value, Quoted(s, word).rest + tail)
    decreases |s|
  {
    if s == "" {
      assert s + tail == tail;
    } else {
      assert (s + tail)[1..] == s[1..] + tail;
      ReadOn(s[1..], tail, word);
      ReadOn(s[1..], tail, word + [s[0]]);
      if |s| > 1 {
        assert (s + tail)[2..] == s[2..] + tail;
        ReadOn(s[2..], tail, word);
        ReadOn(s[2..], tail, word + [s[1]]);
      }
    }
  }

  /** Commands joined by a blank have the words of both. */
  lemma {:induction false} WordsJoin(a: string, b: string)
    requires Words(a).Some?
    ensures Words(a + " " + b) == if Words(b).Some? then Some(Words(a).value + Words(b).value) else None
    decreases |a|
  {
    var s := a + " " + b;
    if a == "" {
      assert s[1..] == b;
      assert Words(b).Some? ==> [] + Words(b).value == Words(b).value;
    } else if IsBlank(a[0]) {
      assert s[1..] == a[1..] + " " + b;
      WordsJoin(a[1..], b);
    } else {
      var first := Unquoted(a, "");
      RestIsShorter(a, "");
      ReadOn(a, " " + b, "");
      assert s == a + (" " + b) && first.rest + (" " + b) == first.rest + " " + b;
      WordsJoin(first.rest, b);
      if Words(b).Some? {
        assert [first.value] + (Words(first.rest).value + Words(b).value) == [first.value] + Words(first.rest).value + Words(b).value;
      }
    }
  }

  lemma Regroup<T>(a: seq<T>, b: seq<T>, c: seq<T>, d: seq<T>)
    ensures a + b + (c + (b + d)) == a + b + c + b + d
    ensures a + (c + d) == a + c + d
  {
  }

  /** Between blanks in a longer command the quoted form is exactly one of its words. */
  lemma QuotedInACommand(before: string, v: string, after: string)
    requires Words(before).Some? && Words(after).Some?
    ensures Words(before + " " + ShellQuote(v) + " " + after) == Some(Words(before).value + [v] + Words(after).value)
  {
    assert (" " + after)[1..] == after && Words(" " + after) == Words(after);
    hide Words, Unquoted, ShellQuote;
    QuotedComesFirst(v, " " + after);
    WordsJoin(before, ShellQuote(v) + (" " + after));
    Regroup(before, " ", ShellQuote(v), after);
    Regroup(Words(before).value, [], [v], Words(after).value);
  }

  /** And so it is at the end of a command. */
  lemma QuotedAtTheEnd(before: string, v: string)
    requires Words(before).Some?
    ensures Words(before + " " + ShellQuote(v)) == Some(Words(before).value + [v])
  {
    QuotedComesFirst(v, "");
    assert ShellQuote(v) + "" == ShellQuote(v);
    assert [v] + [] == [v] && Words("") == Some([]);
    hide Words, Unquoted, ReplaceQuotes, ShellQuote;
    WordsJoin(before, ShellQuote(v));
  }

  function Joined(values: seq<string>): string {
    if values == [] then ""
    else Joined(values[..|values| - 1]) + " " + ShellQuote(values[|values| - 1])
  }

  /** Any list of arguments, quoted one by one, is read back as that list. */
  lemma {:induction false} ArgumentsRoundTrip(values: seq<string>)
    ensures Words(Joined(values)) == Some(values)
  {
    if values != [] {
      var n := |values| - 1;
      ArgumentsRoundTrip(values[..n]);
      QuotedAtTheEnd(Joined(values[..n]), values[n]);
      assert values[..n] + [values[n]] == values;
      hide Words;
    }
  }

  // --- The commands typed into a live shell ---

  /** Goes to a session of tmux, by its id. */
  function AttachCommand(id: string): string {
    "env TMUX= tmux attach-session -t " + ShellQuote(id)
  }

  /** Makes one, or goes to the one of that name; without a name tmux finds one. */
  function CreateCommand(name: string): string {
    if name != "" then "env TMUX= tmux new-session -A -s " + ShellQuote(name)
    else "env TMUX= tmux new-session"
  }

  /** What reaches the shell: a blank goes first, which keeps the command out of the history of
      shells set up so. */
  function TypedLine(command: string): string {
    " " + command
  }

  lemma BlankFirst(command: string)
    ensures Words(TypedLine(command)) == Words(command)
  {
    assert TypedLine(command)[1..] == command;
  }

  /** Not empty, and each character stands for itself wherever it is in a word. */
  predicate IsPlain(w: string) {
    w != "" && forall i | 0 <= i < |w| :: !IsDelimiter(w[i]) && !IsActive(w[i]) && w[i] != '\'' && w[i] != '\\'
  }

  lemma {:induction false} PlainIsRead(w: string, word: string)
    requires w == "" || IsPlain(w)
    ensures Unquoted(w, word) == Word(word + w, "")
  {
    if w == "" {
      assert word + w == word;
    } else {
      PlainIsRead(w[1..], word + [w[0]]);
      assert word + [w[0]] + w[1..] == word + w;
    }
  }

  /** A plain word is its own reading. */
  lemma PlainWord(w: string)
    requires IsPlain(w) && !IsActiveFirst(w[0])
    ensures Words(w) == Some([w])
  {
    PlainIsRead(w, "");
    assert "" + w == w && !IsDelimiter(w[0]) && !IsBlank(w[0]) && Words("") == Some([]);
    assert [w] + [] == [w];
    hide Unquoted;
  }

  lemma Next(before: string, w: string, command: string)
    requires Words(before).Some? && IsPlain(w) && !IsActiveFirst(w[0])
    requires command == before + " " + w
    ensures Words(command) == Some(Words(before).value + [w])
  {
    PlainWord(w);
    hide Words;
    WordsJoin(before, w);
  }

  lemma TmuxIsRead()
    ensures Words("env TMUX= tmux") == Some(["env", "TMUX=", "tmux"])
  {
    hide Words;
    PlainWord("env");
    Next("env", "TMUX=", "env TMUX=");
    Next("env TMUX=", "tmux", "env TMUX= tmux");
    assert ["env"] + ["TMUX="] + ["tmux"] == ["env", "TMUX=", "tmux"];
  }

  lemma PlainOptions()
    ensures IsPlain("attach-session") && IsPlain("new-session")
    ensures IsPlain("-t") && IsPlain("-A") && IsPlain("-s")
  {
  }

  lemma AttachPrefix()
    ensures Words("env TMUX= tmux attach-session -t") == Some(["env", "TMUX=", "tmux", "attach-session", "-t"])
  {
    hide Words, IsPlain;
    PlainOptions();
    TmuxIsRead();
    Next("env TMUX= tmux", "attach-session", "env TMUX= tmux attach-session");
    Next("env TMUX= tmux attach-session", "-t", "env TMUX= tmux attach-session -t");
    assert ["env", "TMUX=", "tmux"] + ["attach-session"] + ["-t"] == ["env", "TMUX=", "tmux", "attach-session", "-t"];
  }

  lemma CreatePrefix()
    ensures Words("env TMUX= tmux new-session") == Some(["env", "TMUX=", "tmux", "new-session"])
    ensures Words("env TMUX= tmux new-session -A -s") == Some(["env", "TMUX=", "tmux", "new-session", "-A", "-s"])
  {
    hide Words, IsPlain;
    PlainOptions();
    TmuxIsRead();
    Next("env TMUX= tmux", "new-session", "env TMUX= tmux new-session");
    assert ["env", "TMUX=", "tmux"] + ["new-session"] == ["env", "TMUX=", "tmux", "new-session"];
    Next("env TMUX= tmux new-session", "-A", "env TMUX= tmux new-session -A");
    Next("env TMUX= tmux new-session -A", "-s", "env TMUX= tmux new-session -A -s");
    assert ["env", "TMUX=", "tmux", "new-session"] + ["-A"] + ["-s"] == ["env", "TMUX=", "tmux", "new-session", "-A", "-s"];
  }

  /** For every session id the command is these five words and the id, and nothing else. */
  lemma AttachIsRead(id: string)
    ensures Words(TypedLine(AttachCommand(id))) == Some(["env", "TMUX=", "tmux", "attach-session", "-t", id])
  {
    BlankFirst(AttachCommand(id));
    hide Words, ShellQuote, TypedLine;
    AttachPrefix();
    assert "env TMUX= tmux attach-session -t " == "env TMUX= tmux attach-session -t" + " ";
    QuotedAtTheEnd("env TMUX= tmux attach-session -t", id);
    assert ["env", "TMUX=", "tmux", "attach-session", "-t"] + [id] == ["env", "TMUX=", "tmux", "attach-session", "-t", id];
  }

  /** For every name the command is these six words and the name or, without a name, four. */
  lemma CreateIsRead(name: string)
    ensures Words(TypedLine(CreateCommand(name))) == Some(
      if name != "" then ["env", "TMUX=", "tmux", "new-session", "-A", "-s", name] else ["env", "TMUX=", "tmux", "new-session"])
  {
    BlankFirst(CreateCommand(name));
    hide Words, ShellQuote, TypedLine;
    CreatePrefix();
    assert "env TMUX= tmux new-session -A -s " == "env TMUX= tmux new-session -A -s" + " ";
    QuotedAtTheEnd("env TMUX= tmux new-session -A -s", name);
    assert ["env", "TMUX=", "tmux", "new-session", "-A", "-s"] + [name]
        == ["env", "TMUX=", "tmux", "new-session", "-A", "-s", name];
  }
}
