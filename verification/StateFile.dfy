/** The last announced state on disk (internal/agent/state_file.go). */
module StateFile {
  import opened Basics

  const HEADER := "dns-ha-agent state v1"
  const KEY := "state="

  function Name(s: State): string {
    match s
    case Healthy => "HEALTHY"
    case Degraded => "DEGRADED"
    case Unhealthy => "UNHEALTHY"
  }

  function Render(s: State): string {
    HEADER + "\n" + KEY + Name(s) + "\n"
  }

  /** The pieces of `text` between newlines, as strings.Split returns them. */
  function Lines(text: string): (lines: seq<string>)
    ensures |lines| > 0
  {
    if |text| == 0 then [""]
    else if text[0] == '\n' then [""] + Lines(text[1..])
    else
      var rest := Lines(text[1..]);
      [[text[0]] + rest[0]] + rest[1..]
  }

  /** White space in the sense of Unicode's White_Space property. */
  predicate IsSpace(c: char) {
    var n := c as int;
    || 0x09 <= n <= 0x0d || n == 0x20 || n == 0x85 || n == 0xa0 || n == 0x1680
    || 0x2000 <= n <= 0x200a || n == 0x2028 || n == 0x2029 || n == 0x202f || n == 0x205f || n == 0x3000
  }

  function TrimLeft(s: string): string {
    if |s| > 0 && IsSpace(s[0]) then TrimLeft(s[1..]) else s
  }

  function TrimRight(s: string): string {
    if |s| > 0 && IsSpace(s[|s| - 1]) then TrimRight(s[..|s| - 1]) else s
  }

  function TrimSpace(s: string): string { TrimRight(TrimLeft(s)) }

  function ParseName(name: string): Option<State> {
    if name == Name(Healthy) then Some(Healthy)
    else if name == Name(Degraded) then Some(Degraded)
    else if name == Name(Unhealthy) then Some(Unhealthy)
    else None
  }

  function ParseLine(line: string): Option<State> {
    if KEY <= line then ParseName(TrimSpace(line[|KEY|..])) else None
  }

  /** The state named by the first line that names one. */
  function Parse(lines: seq<string>): (s: Option<State>)
  {
    if |lines| == 0 then None
    else if ParseLine(lines[0]).Some? then ParseLine(lines[0])
    else Parse(lines[1..])
  }

  /** What a restart would resume from: the file's state, or nothing when the
      file is missing or names no state. */
  function Stored(content: Option<string>): Option<State> {
    match content
    case None => None
    case Some(text) => Parse(Lines(text))
  }

  class File {
    var content: Option<string>

    constructor (content: Option<string>)
      ensures this.content == content
    {
      this.content := content;
    }

    method LoadState() returns (loaded: Option<State>)
      ensures loaded == Stored(content)
    {
      if content.None? {
        return None;
      }
      var lines := Lines(content.value);
      var n := 0;
      while n < |lines|
        invariant 0 <= n <= |lines|
        invariant Parse(lines) == Parse(lines[n..])
      {
        if KEY <= lines[n] {
          var parsed := ParseName(TrimSpace(lines[n][|KEY|..]));
          if parsed.Some? {
            return parsed;
          }
        }
        n := n + 1;
      }
      return None;
    }

    method SaveState(s: State)
      modifies this
      ensures content == Some(Render(s))
    {
      content := Some(Render(s));
    }
  }

  lemma {:induction false} LinesAtBreak(line: string, rest: string)
    requires '\n' !in line
    ensures Lines(line + "\n" + rest) == [line] + Lines(rest)
  {
    var text := line + "\n" + rest;
    if |line| == 0 {
      assert text[1..] == rest;
    } else {
      assert text[1..] == line[1..] + "\n" + rest;
      LinesAtBreak(line[1..], rest);
      assert text[0] == line[0] != '\n';
      assert [line[0]] + line[1..] == line;
    }
  }

  // ----- what a line means -----

  predicate Blank(s: string) {
    forall k | 0 <= k < |s| :: IsSpace(s[k])
  }

  lemma {:induction false} TrimLeftOf(blank: string, rest: string)
    requires Blank(blank) && (|rest| > 0 ==> !IsSpace(rest[0]))
    ensures TrimLeft(blank + rest) == rest
  {
    if |blank| == 0 {
      assert blank + rest == rest;
    } else {
      assert (blank + rest)[1..] == blank[1..] + rest;
      TrimLeftOf(blank[1..], rest);
    }
  }

  lemma {:induction false} TrimRightOf(rest: string, blank: string)
    requires Blank(blank) && (|rest| > 0 ==> !IsSpace(rest[|rest| - 1]))
    ensures TrimRight(rest + blank) == rest
  {
    if |blank| == 0 {
      assert rest + blank == rest;
    } else {
      assert (rest + blank)[..|rest + blank| - 1] == rest + blank[..|blank| - 1];
      TrimRightOf(rest, blank[..|blank| - 1]);
    }
  }

  lemma {:induction false} TrimLeftSplits(s: string) returns (blank: string)
    ensures Blank(blank) && s == blank + TrimLeft(s)
  {
    if |s| > 0 && IsSpace(s[0]) {
      blank := TrimLeftSplits(s[1..]);
      blank := [s[0]] + blank;
    } else {
      blank := "";
    }
  }

  lemma {:induction false} TrimRightSplits(s: string) returns (blank: string)
    ensures Blank(blank) && s == TrimRight(s) + blank
  {
    if |s| > 0 && IsSpace(s[|s| - 1]) {
      blank := TrimRightSplits(s[..|s| - 1]);
      blank := blank + [s[|s| - 1]];
    } else {
      blank := "";
    }
  }

  /** `line` is the key, the state's name, and white space around the name. */
  ghost predicate Names(line: string, s: State) {
    exists before, after | Blank(before) && Blank(after) :: line == "state=" + (before + (Name(s) + after))
  }

  lemma NameEnds(s: State)
    ensures |Name(s)| > 0 && !IsSpace(Name(s)[0]) && !IsSpace(Name(s)[|Name(s)| - 1])
  {
  }

  lemma ParseNameIff(name: string, s: State)
    ensures ParseName(name) == Some(s) <==> name == Name(s)
  {
    assert Name(Healthy)[0] == 'H' && Name(Degraded)[0] == 'D' && Name(Unhealthy)[0] == 'U';
  }

  /** A line counts exactly when it is the key with a state's name, give or take
      surrounding white space. */
  lemma LineNamesIff(line: string, s: State)
    ensures ParseLine(line) == Some(s) <==> Names(line, s)
  {
    hide IsSpace, Name, ParseName, TrimLeft, TrimRight;
    NameEnds(s);
    if Names(line, s) {
      var before, after :| Blank(before) && Blank(after) && line == "state=" + (before + (Name(s) + after));
      assert line[|KEY|..] == before + (Name(s) + after);
      TrimLeftOf(before, Name(s) + after);
      TrimRightOf(Name(s), after);
      ParseNameIff(Name(s), s);
    }
    if ParseLine(line) == Some(s) {
      var value := line[|KEY|..];
      ParseNameIff(TrimSpace(value), s);
      var before := TrimLeftSplits(value);
      var after := TrimRightSplits(TrimLeft(value));
      assert value == before + (Name(s) + after);
      assert line == KEY + value;
    }
  }

  /** Lines are the pieces between the newlines: they contain none, and joined by
      newlines they are the text. */
  function Joined(lines: seq<string>): string {
    if |lines| == 0 then "" else if |lines| == 1 then lines[0] else lines[0] + "\n" + Joined(lines[1..])
  }

  lemma {:induction false} LinesSplit(text: string)
    ensures Joined(Lines(text)) == text
    ensures forall line | line in Lines(text) :: '\n' !in line
  {
    if |text| > 0 {
      var rest := Lines(text[1..]);
      LinesSplit(text[1..]);
      assert text == [text[0]] + text[1..];
      if text[0] != '\n' {
        var all := [[text[0]] + rest[0]] + rest[1..];
        assert all[1..] == rest[1..];
        assert Joined(all) == [text[0]] + Joined(rest);
        assert rest[0] in rest;
      } else {
        assert ([""] + rest)[1..] == rest;
      }
    }
  }

  /** The text of a saved state, to the letter. */
  lemma SavedText(s: State)
    ensures Render(s) == "dns-ha-agent state v1\nstate="
      + (match s case Healthy => "HEALTHY" case Degraded => "DEGRADED" case Unhealthy => "UNHEALTHY") + "\n"
  {
  }

  lemma TrimNothing(s: string)
    requires |s| > 0 && !IsSpace(s[0]) && !IsSpace(s[|s| - 1])
    ensures TrimSpace(s) == s
  {
  }

  lemma NameIsRead(s: State)
    ensures ParseLine(KEY + Name(s)) == Some(s)
  {
    TrimNothing(Name(s));
    assert (KEY + Name(s))[|KEY|..] == Name(s);
  }

  /** What was saved is what is loaded. */
  lemma RoundTrip(s: State)
    ensures Stored(Some(Render(s))) == Some(s)
  {
    hide TrimSpace, ParseName;
    var line := KEY + Name(s);
    assert Render(s) == HEADER + "\n" + (line + "\n" + "");
    LinesAtBreak(HEADER, line + "\n" + "");
    LinesAtBreak(line, "");
    var lines := Lines(Render(s));
    assert lines == [HEADER, line, ""];
    NameIsRead(s);
    assert HEADER[0] != KEY[0];
    assert lines[1..][0] == line;
    assert Parse(lines) == Parse(lines[1..]);
  }

  /** Loading succeeds exactly when some line names a state, and the first such
      line wins. */
  lemma {:induction false} ParseFindsFirst(lines: seq<string>)
    ensures Parse(lines).None? <==> forall n | 0 <= n < |lines| :: ParseLine(lines[n]).None?
    ensures Parse(lines).Some? ==>
      exists n | 0 <= n < |lines| ::
        Parse(lines) == ParseLine(lines[n]) && forall m | 0 <= m < n :: ParseLine(lines[m]).None?
  {
    if |lines| > 0 && ParseLine(lines[0]).None? {
      var rest := lines[1..];
      ParseFindsFirst(rest);
      if Parse(rest).Some? {
        var n :|
          && 0 <= n < |rest| && Parse(rest) == ParseLine(rest[n])
          && forall m | 0 <= m < n :: ParseLine(rest[m]).None?;
        assert lines[n + 1] == rest[n];
        forall m | 0 <= m < n + 1
          ensures ParseLine(lines[m]).None?
        {
          if m > 0 {
            assert lines[m] == rest[m - 1];
          }
        }
      } else {
        forall m | 0 <= m < |lines|
          ensures ParseLine(lines[m]).None?
        {
          if m > 0 {
            assert lines[m] == rest[m - 1];
          }
        }
      }
    }
  }
}
