/** One process per section of the configuration file, and the forwarding of SIGHUP between them. */
module Instances {
  import opened Bytes
  import opened Net

  type Pid = nat

  const SECTION_NAME_MAX: nat := 255

  // ----- one line

  datatype Line = Blank | Header(name: string) | Setting(key: string, value: string) | Bad

  predicate IsSpace(c: char) { c in " \t\r\n" }

  predicate IsIndent(c: char) { c in " \t" }

  predicate IsEqualSign(c: char) { c == '=' }

  function TrimRight(s: string): (r: string)
    ensures r <= s && forall k :: |r| <= k < |s| ==> IsSpace(s[k])
    ensures r != "" ==> !IsSpace(r[|r| - 1])
  {
    if s != "" && IsSpace(s[|s| - 1]) then TrimRight(s[..|s| - 1]) else s
  }

  function TrimLeft(s: string, blank: char -> bool): (r: string)
    ensures |r| <= |s| && r == s[|s| - |r|..] && forall k :: 0 <= k < |s| - |r| ==> blank(s[k])
    ensures r != "" ==> !blank(r[0])
  {
    if s != "" && blank(s[0]) then
      var r := TrimLeft(s[1..], blank);
      assert s[1..][|s| - 1 - |r|..] == s[|s| - |r|..];
      assert forall k :: 1 <= k < |s| - |r| ==> s[k] == s[1..][k - 1];
      r
    else s
  }

  /** What stands before the first `c`. */
  function UpTo(s: string, c: char): (r: string)
    ensures r <= s && c !in r && (r == s || s[|r|] == c)
  {
    if s == "" || s[0] == c then "" else [s[0]] + UpTo(s[1..], c)
  }

  function Trim(s: string): string { TrimRight(TrimLeft(s, IsSpace)) }

  /** The two tokens that `strtok` finds between `=` signs. */
  function KeyValue(s: string): Option<(string, string)>
  {
    var a := TrimLeft(s, IsEqualSign);
    var b := TrimLeft(a[|UpTo(a, '=')|..], IsEqualSign);
    var value := Trim(UpTo(b, '='));
    if a == "" || value == "" then None else Some((Trim(UpTo(a, '=')), value))
  }

  function Stripped(raw: string): string
  {
    UpTo(TrimLeft(TrimRight(raw), IsIndent), '#')
  }

  predicate AllSpace(s: string) { forall k :: 0 <= k < |s| ==> IsSpace(s[k]) }

  function Parsed(s: string): Line
  {
    if AllSpace(s) then Blank
    else if s[0] == '[' && s[|s| - 1] == ']' then Header(Clipped(s[1..|s| - 1]))
    else match KeyValue(s)
      case None => Bad
      case Some((key, value)) => Setting(key, value)
  }

  function Clipped(name: string): string
  {
    if |name| <= SECTION_NAME_MAX then name else name[..SECTION_NAME_MAX]
  }

  function Classify(raw: string): Line { Parsed(Stripped(raw)) }

  lemma TrimLeftNone(s: string, blank: char -> bool)
    requires s != "" && !blank(s[0])
    ensures TrimLeft(s, blank) == s
  {
  }

  lemma {:induction false} UpToFirst(a: string, c: char, b: string)
    requires c !in a
    ensures UpTo(a + [c] + b, c) == a
    decreases |a|
  {
    var s := a + [c] + b;
    if a != "" {
      UpToFirst(a[1..], c, b);
      assert s[1..] == a[1..] + [c] + b;
    }
  }

  lemma {:induction false} TrimRightKeeps(a: string, b: string)
    requires a != "" && !IsSpace(a[|a| - 1])
    ensures a <= TrimRight(a + b) && TrimRight(a + b) <= a + b
    decreases |b|
  {
    if b == "" {
      assert a + b == a;
    } else {
      assert (a + b)[..|a + b| - 1] == a + b[..|b| - 1];
      TrimRightKeeps(a, b[..|b| - 1]);
    }
  }

  lemma CommentCut(head: string, comment: string)
    requires head != "" && !IsIndent(head[0]) && '#' !in head
    ensures Stripped(head + "#" + comment) == head
  {
    var front := head + "#";
    assert front == head + ['#'] && front[|front| - 1] == '#' && !IsSpace('#');
    TrimRightKeeps(front, comment);
    var t := TrimRight(front + comment);
    assert t == head + ['#'] + t[|head| + 1..];
    assert t[0] == head[0];
    TrimLeftNone(t, IsIndent);
    UpToFirst(head, '#', t[|head| + 1..]);
  }

  lemma ParsedHeader(name: string, gap: string)
    requires forall k :: 0 <= k < |gap| ==> IsIndent(gap[k])
    ensures Parsed("[" + name + "]" + gap).Header? <==> gap == ""
  {
    var head := "[" + name + "]" + gap;
    assert head[0] == '[' && !IsSpace('[') && !AllSpace(head);
    if gap == "" {
      assert head[|head| - 1] == ']';
    } else {
      assert head[|head| - 1] == gap[|gap| - 1] && IsIndent(gap[|gap| - 1]);
    }
  }

  /** The line is trimmed before its comment is cut off, so a comment spoils a header unless it follows at once. */
  lemma HeaderBeforeComment(name: string, gap: string, comment: string)
    requires '#' !in name && forall k :: 0 <= k < |gap| ==> IsIndent(gap[k])
    ensures Classify("[" + name + "]" + gap + "#" + comment).Header? <==> gap == ""
  {
    hide Stripped, Parsed;
    var head := "[" + name + "]" + gap;
    assert '#' !in gap && '#' !in head && head[0] == '[';
    CommentCut(head, comment);
    ParsedHeader(name, gap);
  }

  // ----- a setting, letter by letter

  lemma {:induction false} TrimLeftTo(blank: char -> bool, gap: string, rest: string)
    requires (forall k :: 0 <= k < |gap| ==> blank(gap[k])) && (rest != "" ==> !blank(rest[0]))
    ensures TrimLeft(gap + rest, blank) == rest
    decreases |gap|
  {
    if gap == "" {
      assert gap + rest == rest;
    } else {
      assert (gap + rest)[1..] == gap[1..] + rest;
      TrimLeftTo(blank, gap[1..], rest);
    }
  }

  lemma {:induction false} TrimRightTo(front: string, gap: string)
    requires AllSpace(gap) && (front != "" ==> !IsSpace(front[|front| - 1]))
    ensures TrimRight(front + gap) == front
    decreases |gap|
  {
    if gap == "" {
      assert front + gap == front;
    } else {
      var n := |gap| - 1;
      assert (front + gap)[..|front| + n] == front + gap[..n];
      TrimRightTo(front, gap[..n]);
    }
  }

  /** Neither empty nor with a blank at an end. */
  ghost predicate Trimmed(s: string) { s != "" && !IsSpace(s[0]) && !IsSpace(s[|s| - 1]) }

  lemma TrimTo(left: string, s: string, right: string)
    requires AllSpace(left) && AllSpace(right) && Trimmed(s)
    ensures Trim(left + s + right) == s
  {
    assert left + s + right == left + (s + right);
    TrimLeftTo(IsSpace, left, s + right);
    TrimRightTo(s, right);
  }

  lemma TrimNothing(s: string)
    ensures Trim(s) == "" <==> AllSpace(s)
  {
    if AllSpace(s) {
      assert s + "" == s;
      TrimLeftTo(IsSpace, s, "");
    } else {
      var l := TrimLeft(s, IsSpace);
      assert l != "" && !IsSpace(l[0]);
    }
  }

  ghost predicate AllEqualSigns(s: string) { forall k :: 0 <= k < |s| ==> s[k] == '=' }

  lemma {:induction false} UpToAll(a: string, c: char)
    requires c !in a
    ensures UpTo(a, c) == a
    decreases |a|
  {
    if a != "" { UpToAll(a[1..], c); }
  }

  /** The first token between equal signs is the key and the second the value; without one, or with a blank one, the line is bad. */
  lemma TokensExactly(e: string, k: string, f: string, v: string, rest: string)
    requires AllEqualSigns(e) && AllEqualSigns(f) && '=' !in k && '=' !in v && (rest == "" || rest[0] == '=')
    requires (k == "" ==> f == "") && (f == "" ==> v == "") && (v == "" ==> rest == "")
    ensures KeyValue(e + (k + (f + (v + rest)))) == if AllSpace(v) then None else Some((Trim(k), Trim(v)))
  {
    hide Trim, TrimLeft, UpTo, AllSpace, IsSpace;
    var b := v + rest;
    var a := k + (f + b);
    TrimLeftTo(IsEqualSign, e, a);
    FirstToken(k, f + b);
    assert a[|k|..] == f + b;
    TrimLeftTo(IsEqualSign, f, b);
    FirstToken(v, rest);
    TrimNothing(v);
    if v == "" { NoSpace(v); }
  }

  lemma NoSpace(s: string)
    requires s == ""
    ensures AllSpace(s)
  {
  }

  lemma FirstToken(k: string, rest: string)
    requires '=' !in k && (rest == "" || rest[0] == '=')
    ensures UpTo(k + rest, '=') == k
  {
    if rest == "" {
      assert k + rest == k;
      UpToAll(k, '=');
    } else {
      assert k + rest == k + ['='] + rest[1..];
      UpToFirst(k, '=', rest[1..]);
    }
  }

  /** What a line keeps of its end: the blanks before a comment, and otherwise nothing. */
  lemma StrippedLine(indent: string, front: string, gap: string, comment: string)
    requires AllIndent(indent) && AllSpace(gap) && Trimmed(front) && '#' !in front && IsComment(comment)
    ensures Stripped(indent + front + gap + comment) == front + KeptGap(gap, comment)
  {
    hide TrimLeft, TrimRight, UpTo, AllSpace;
    assert !IsIndent(front[0]);
    if comment == "" {
      assert indent + front + gap + comment == (indent + front) + gap;
      assert (indent + front)[|indent + front| - 1] == front[|front| - 1];
      TrimRightTo(indent + front, gap);
      TrimLeftTo(IsIndent, indent, front);
      UpToAll(front, '#');
      assert front + KeptGap(gap, comment) == front;
    } else {
      assert indent + front + gap + comment == indent + (front + gap) + "#" + comment[1..];
      NoSign(gap);
      CommentLine(indent, front + gap, comment[1..]);
    }
  }

  lemma NoSign(gap: string)
    requires AllSpace(gap)
    ensures '#' !in gap && '=' !in gap
  {
  }

  lemma CommentLine(indent: string, front: string, comment: string)
    requires AllIndent(indent) && front != "" && !IsIndent(front[0]) && '#' !in front
    ensures Stripped(indent + front + "#" + comment) == front
  {
    hide TrimLeft, TrimRight, UpTo;
    var head := indent + front + "#";
    assert head[|head| - 1] == '#' && !IsSpace('#');
    TrimRightKeeps(head, comment);
    var t := TrimRight(head + comment);
    var tail := t[|head|..];
    assert t == indent + (front + ['#'] + tail);
    assert (front + ['#'] + tail)[0] == front[0];
    TrimLeftTo(IsIndent, indent, front + ['#'] + tail);
    UpToFirst(front, '#', tail);
  }

  ghost predicate AllIndent(s: string) { forall k :: 0 <= k < |s| ==> IsIndent(s[k]) }

  ghost predicate IsComment(s: string) { s != "" ==> s[0] == '#' }

  ghost function KeptGap(gap: string, comment: string): string { if comment == "" then "" else gap }

  ghost predicate Word(s: string) { Trimmed(s) && '=' !in s && '#' !in s }

  /** A line `key = value`, with or without blanks and a comment, is the setting of `value` for `key`. */
  lemma SettingLine(indent: string, key: string, g: string, h: string, value: string, gap: string, comment: string)
    requires AllIndent(indent) && AllSpace(g) && AllSpace(h) && AllSpace(gap) && IsComment(comment)
    requires Word(key) && Word(value) && (key[0] == '[' ==> value[|value| - 1] != ']')
    ensures Classify(indent + (key + g + "=" + h + value) + gap + comment) == Setting(key, value)
  {
    hide Stripped, KeyValue, AllSpace, IsSpace, IsComment, AllIndent, Trim;
    var front, left := key + g + "=" + h + value, KeptGap(gap, comment);
    NoSign(g);
    NoSign(h);
    StrippedLine(indent, front, gap, comment);
    NoSpace("");
    NoSign(left);
    assert front + left == "" + ((key + g) + ("=" + ((h + value + left) + "")));
    TokensExactly("", key + g, "=", h + value + left, "");
    TrimTo("", key, g);
    assert "" + key + g == key + g;
    TrimTo(h, value, left);
    TrimNothing(h + value + left);
    hide Word, Trimmed;
    ParsedSetting(front, left);
  }

  /** A line that does not begin and end like a header is neither blank nor one. */
  lemma ParsedSetting(front: string, left: string)
    requires Trimmed(front) && AllSpace(left) && (front[0] == '[' ==> front[|front| - 1] != ']')
    ensures Parsed(front + left) == match KeyValue(front + left) case None => Bad case Some((k, v)) => Setting(k, v)
  {
    hide KeyValue;
    var s := front + left;
    assert s[0] == front[0] && !IsSpace(s[0]);
    if left != "" { assert s[|s| - 1] == left[|left| - 1] && IsSpace(s[|s| - 1]); }
  }

  /** A line that is neither blank nor a header and has no equal sign before its comment is bad. */
  lemma NoValueIsBad(indent: string, front: string, gap: string, comment: string)
    requires AllIndent(indent) && AllSpace(gap) && IsComment(comment) && Word(front)
    requires front[0] == '[' ==> front[|front| - 1] != ']'
    ensures Classify(indent + front + gap + comment) == Bad
  {
    hide Stripped, KeyValue, Parsed;
    var left := KeptGap(gap, comment);
    StrippedLine(indent, front, gap, comment);
    TokensExactly("", front + left, "", "", "");
    assert "" + ((front + left) + ("" + ("" + ""))) == front + left;
    ParsedSetting(front, left);
  }

  /** So is one whose value is blank. */
  lemma BlankValueIsBad(indent: string, key: string, g: string, gap: string, comment: string)
    requires AllIndent(indent) && AllSpace(g) && AllSpace(gap) && IsComment(comment) && Word(key)
    ensures Classify(indent + (key + g + "=") + gap + comment) == Bad
  {
    hide Stripped, KeyValue, Parsed;
    var front, left := key + g + "=", KeptGap(gap, comment);
    StrippedLine(indent, front, gap, comment);
    TokensExactly("", key + g, "=", left, "");
    assert "" + ((key + g) + ("=" + (left + ""))) == front + left;
    ParsedSetting(front, left);
  }

  lemma {:induction false} BlanksBefore(gap: string, tail: string)
    requires AllSpace(gap)
    ensures AllSpace(UpTo(TrimLeft(gap + ['#'] + tail, IsIndent), '#'))
    decreases |gap|
  {
    var t := gap + ['#'] + tail;
    if gap != "" && IsIndent(gap[0]) {
      assert t[1..] == gap[1..] + ['#'] + tail;
      BlanksBefore(gap[1..], tail);
    } else {
      assert !IsIndent(t[0]);
      TrimLeftNone(t, IsIndent);
      NoSign(gap);
      UpToFirst(gap, '#', tail);
    }
  }

  /** A line of blanks, with or without a comment, says nothing. */
  lemma BlankLine(gap: string, comment: string)
    requires AllSpace(gap) && IsComment(comment)
    ensures Classify(gap + comment) == Blank
  {
    hide TrimLeft, TrimRight, UpTo;
    if comment == "" {
      assert gap + comment == "" + gap;
      TrimRightTo("", gap);
    } else {
      var head := gap + "#";
      assert head + comment[1..] == gap + comment && head[|head| - 1] == '#' && !IsSpace('#');
      TrimRightKeeps(head, comment[1..]);
      var t := TrimRight(gap + comment);
      assert t == gap + ['#'] + t[|head|..];
      BlanksBefore(gap, t[|head|..]);
    }
  }

  /** A header names its section with at most 255 characters. */
  lemma HeaderLine(indent: string, name: string, gap: string)
    requires AllIndent(indent) && AllSpace(gap) && '#' !in name
    ensures Classify(indent + ("[" + name + "]") + gap) == Header(if |name| <= 255 then name else name[..255])
  {
    hide Stripped, KeyValue;
    var front := "[" + name + "]";
    StrippedLine(indent, front, gap, "");
    assert indent + front + gap + "" == indent + front + gap && front + KeptGap(gap, "") == front;
    assert front[0] == '[' && front[|front| - 1] == ']' && front[1..|front| - 1] == name;
  }

  // ----- reading the file

  datatype Section = Section(name: string, settings: seq<(string, string)>)

  /** What an instance takes with it: its section, and the processes it forwards signals to. */
  datatype Process = Process(section: Section, pids: seq<Pid>)

  /** `Refused` ends the program; a flag set to false is accepted and ignored. */
  datatype Answer = Refused | Ignored | Applied

  /** The answers of `fork`, of `realloc` for the n-th child, and of the option parser. */
  datatype Os = Os(fork: nat -> Option<Pid>, alloc: nat -> bool, option: (string, string) -> Answer)

  /** The instances forked so far and the process that goes on reading. */
  datatype Reading = Reading(children: seq<Process>, main: Process, first: bool, ok: bool)

  ghost function Registered(main: Process, pid: Pid, allocOk: bool): Process
  {
    if allocOk then main.(pids := main.pids + [pid]) else main
  }

  ghost function OnHeader(r: Reading, name: string, os: Os): Reading
  {
    var n := |r.children|;
    if r.first then r.(main := r.main.(section := Section(name, [])), first := false)
    else if os.fork(n).None? then r.(ok := false)
    else
      r.(children := r.children + [r.main],
         main := Registered(r.main, os.fork(n).value, os.alloc(n)).(section := Section(name, [])))
  }

  ghost function OnLine(r: Reading, line: Line, os: Os): Reading
  {
    if !r.ok then r
    else
      match line
      case Blank => r
      case Bad => r.(ok := false)
      case Header(name) => OnHeader(r, name, os)
      case Setting(key, value) =>
        if os.option(key, value).Refused? then r.(ok := false)
        else if os.option(key, value).Ignored? then r
        else
          var settings := r.main.section.settings + [(key, value)];
          r.(main := r.main.(section := r.main.section.(settings := settings)))
  }

  ghost function Read(p0: Process, lines: seq<Line>, os: Os): Reading
  {
    if lines == [] then Reading([], p0, true, true)
    else OnLine(Read(p0, lines[..|lines| - 1], os), lines[|lines| - 1], os)
  }

  lemma ReadNext(p0: Process, lines: seq<Line>, line: Line, os: Os)
    ensures Read(p0, lines + [line], os) == OnLine(Read(p0, lines, os), line, os)
  {
    assert (lines + [line])[..|lines|] == lines;
  }

  ghost function Classified(lines: seq<string>): (r: seq<Line>)
    ensures |r| == |lines|
  {
    seq(|lines|, i requires 0 <= i < |lines| => Classify(lines[i]))
  }

  /** `fgets` hands over one line after the other; the process may be copied while it reads. */
  class Reader {
    var name: string
    var settings: seq<(string, string)>
    var childPids: seq<Pid>

    ghost function Self(): Process
      reads this
    {
      Process(Section(name, settings), childPids)
    }

    constructor (name: string, settings: seq<(string, string)>)
      ensures Self() == Process(Section(name, settings), [])
    {
      this.name, this.settings, childPids := name, settings, [];
    }

    method ResetConfig()
      modifies `settings
      ensures settings == []
    {
      settings := [];
    }

    method RegisterChildInstance(pid: Pid, allocOk: bool)
      modifies `childPids
      ensures Self() == Registered(old(Self()), pid, allocOk)
    {
      if allocOk {
        childPids := childPids + [pid];
      }
    }

    /** Takes blanks off both ends, then the comment. */
    method CleanLine(raw: string) returns (line: string)
      ensures line == Stripped(raw)
    {
      line := raw;
      while line != "" && IsSpace(line[|line| - 1])
        invariant TrimRight(line) == TrimRight(raw)
        decreases |line|
      {
        line := line[..|line| - 1];
      }
      while line != "" && IsIndent(line[0])
        invariant TrimLeft(line, IsIndent) == TrimLeft(TrimRight(raw), IsIndent)
        decreases |line|
      {
        line := line[1..];
      }
      line := UpTo(line, '#');
    }

    method StartSection(title: string, children0: seq<Process>, first0: bool, os: Os) returns (children: seq<Process>, first: bool, ok: bool)
      modifies this
      ensures Reading(children, Self(), first, ok) == OnHeader(Reading(children0, old(Self()), first0, true), title, os)
    {
      children, first, ok := children0, first0, true;
      if !first {
        var n := |children|;
        var pid := os.fork(n);
        if pid.None? {
          return children, first, false;
        }
        children := children + [Process(Section(name, settings), childPids)];
        RegisterChildInstance(pid.value, os.alloc(n));
      }
      name := title;
      ResetConfig();
      first := false;
    }

    method TakeLine(parsed: Line, children0: seq<Process>, first0: bool, os: Os) returns (children: seq<Process>, first: bool, ok: bool)
      modifies this
      ensures Reading(children, Self(), first, ok) == OnLine(Reading(children0, old(Self()), first0, true), parsed, os)
    {
      hide OnHeader;
      children, first, ok := children0, first0, true;
      match parsed {
        case Blank =>
        case Bad => ok := false;
        case Header(title) => children, first, ok := StartSection(title, children, first, os);
        case Setting(key, value) =>
          var answer := os.option(key, value);
          if answer.Refused? {
            ok := false;
          } else if answer.Applied? {
            settings := settings + [(key, value)];
          }
      }
    }

    method ReadConfigFile(lines: seq<string>, os: Os) returns (children: seq<Process>, ghost first: bool, ok: bool)
      modifies this
      ensures Reading(children, Self(), first, ok) == Read(old(Self()), Classified(lines), os)
    {
      hide Read, OnLine, Classify, Stripped, Parsed, Self;
      ghost var p0, ls := Self(), Classified(lines);
      var firstSection, i := true, 0;
      children, ok := [], true;
      ReadNothing(p0, ls, os);
      while i < |lines|
        invariant 0 <= i <= |lines| && ok
        invariant Reading(children, Self(), firstSection, ok) == Read(p0, ls[..i], os)
      {
        ReadPrefix(p0, lines, i, os);
        ClassifyIs(lines[i]);
        var line := CleanLine(lines[i]);
        children, firstSection, ok := TakeLine(Parsed(line), children, firstSection, os);
        i := i + 1;
        if !ok {
          return children, firstSection, ok;
        }
      }
      first := firstSection;
      assert ls[..i] == ls;
    }
  }

  lemma ReadNothing(p0: Process, lines: seq<Line>, os: Os)
    ensures Read(p0, lines[..0], os) == Reading([], p0, true, true)
  {
  }

  lemma ClassifyIs(raw: string)
    ensures Classify(raw) == Parsed(Stripped(raw))
  {
  }

  lemma ReadPrefix(p0: Process, lines: seq<string>, i: nat, os: Os)
    requires i < |lines|
    ensures var ls := Classified(lines);
      && Read(p0, ls[..i + 1], os) == OnLine(Read(p0, ls[..i], os), Classify(lines[i]), os)
      && (!Read(p0, ls[..i + 1], os).ok ==> Read(p0, ls, os) == Read(p0, ls[..i + 1], os))
  {
    hide Classify, Read, OnLine;
    var ls := Classified(lines);
    assert ls[..i + 1] == ls[..i] + [ls[i]];
    ReadNext(p0, ls[..i], ls[i], os);
    if !Read(p0, ls[..i + 1], os).ok { Stopped(p0, ls, i + 1, os); }
  }

  /** A refused line ends the reading process; the instances forked before it are on their way. */
  lemma {:induction false} Stopped(p0: Process, lines: seq<Line>, n: nat, os: Os)
    requires n <= |lines| && !Read(p0, lines[..n], os).ok
    ensures Read(p0, lines, os) == Read(p0, lines[..n], os)
    decreases |lines|
  {
    if n == |lines| {
      assert lines[..n] == lines;
    } else {
      assert lines[..|lines| - 1][..n] == lines[..n];
      Stopped(p0, lines[..|lines| - 1], n, os);
    }
  }

  // ----- one instance per section

  ghost function Sectioned(ss: seq<Section>, line: Line, os: Os): seq<Section>
  {
    match line
    case Header(name) => ss + [Section(name, [])]
    case Setting(key, value) =>
      if ss == [] || !os.option(key, value).Applied? then ss
      else
        var last := ss[|ss| - 1];
        ss[|ss| - 1 := last.(settings := last.settings + [(key, value)])]
    case _ => ss
  }

  /** The sections of a file, without any processes: a header starts one, a setting goes to the latest. */
  ghost function SectionsIn(lines: seq<Line>, os: Os): seq<Section>
  {
    if lines == [] then [] else Sectioned(SectionsIn(lines[..|lines| - 1], os), lines[|lines| - 1], os)
  }

  ghost function SectionOf(ps: seq<Process>): (r: seq<Section>)
    ensures |r| == |ps|
  {
    seq(|ps|, i requires 0 <= i < |ps| => ps[i].section)
  }

  /** The children that `fork` reported and that could be remembered. */
  ghost function Remembered(os: Os, n: nat): seq<Pid>
  {
    if n == 0 then []
    else Remembered(os, n - 1) + if os.alloc(n - 1) && os.fork(n - 1).Some? then [os.fork(n - 1).value] else []
  }

  /** The processes have the sections, each knowing those forked before it. */
  ghost predicate Forked(r: Reading, ss: seq<Section>, p0: Process, os: Os) {
    && (if r.first then r.children == [] && ss == [] else SectionOf(r.children) + [r.main.section] == ss)
    && r.main.pids == p0.pids + Remembered(os, |r.children|)
    && forall i :: 0 <= i < |r.children| ==> r.children[i].pids == p0.pids + Remembered(os, i) && os.fork(i).Some?
  }

  lemma HeaderForked(r: Reading, ss: seq<Section>, p0: Process, os: Os, name: string)
    requires r.ok && Forked(r, ss, p0, os) && OnHeader(r, name, os).ok
    ensures Forked(OnHeader(r, name, os), ss + [Section(name, [])], p0, os)
  {
    hide SectionOf, Remembered;
    var s := OnHeader(r, name, os);
    if r.first {
      assert SectionOf(s.children) + [s.main.section] == ss + [Section(name, [])];
    } else {
      var n := |r.children|;
      SectionsMore(r.children, r.main);
      RememberedNext(os, n);
      assert s.main.pids == p0.pids + Remembered(os, n + 1);
      forall i | 0 <= i < |s.children| ensures s.children[i].pids == p0.pids + Remembered(os, i) && os.fork(i).Some? {
        if i < n { assert s.children[i] == r.children[i]; }
      }
    }
  }

  lemma SectionsMore(ps: seq<Process>, p: Process)
    ensures SectionOf(ps + [p]) == SectionOf(ps) + [p.section]
  {
  }

  lemma RememberedNext(os: Os, n: nat)
    requires os.fork(n).Some?
    ensures Remembered(os, n + 1) == Remembered(os, n) + if os.alloc(n) then [os.fork(n).value] else []
  {
  }

  lemma SettingForked(r: Reading, ss: seq<Section>, p0: Process, os: Os, last: Section)
    requires r.ok && !r.first && Forked(r, ss, p0, os)
    ensures |ss| > 0 && ss[|ss| - 1] == r.main.section
    ensures Forked(r.(main := r.main.(section := last)), ss[|ss| - 1 := last], p0, os)
  {
    hide SectionOf, Remembered;
    assert ss[..|ss| - 1] == SectionOf(r.children);
    assert ss[|ss| - 1 := last] == ss[..|ss| - 1] + [last];
  }

  lemma LineForked(r: Reading, ss: seq<Section>, p0: Process, os: Os, line: Line)
    requires r.ok && Forked(r, ss, p0, os) && OnLine(r, line, os).ok
    ensures Forked(OnLine(r, line, os), Sectioned(ss, line, os), p0, os)
  {
    hide SectionOf, Remembered, OnHeader;
    match line
    case Header(name) => HeaderForked(r, ss, p0, os, name);
    case Setting(key, value) =>
      if !r.first {
        SettingForked(r, ss, p0, os, r.main.section.(settings := r.main.section.settings + [(key, value)]));
      }
    case _ =>
  }

  /**
   * A file that is read to its end gives one instance for each of its sections, with the settings of that section alone;
   * each knows the processes forked before it. Without a header the process stays alone.
   */
  lemma {:induction false} OneInstanceEach(p0: Process, lines: seq<Line>, os: Os)
    requires Read(p0, lines, os).ok
    ensures Forked(Read(p0, lines, os), SectionsIn(lines, os), p0, os)
    decreases |lines|
  {
    hide Forked, Sectioned;
    if lines == [] {
      NothingForked(p0, os);
    } else {
      OneInstanceEach(p0, lines[..|lines| - 1], os);
      LineForked(Read(p0, lines[..|lines| - 1], os), SectionsIn(lines[..|lines| - 1], os), p0, os, lines[|lines| - 1]);
    }
  }

  lemma NothingForked(p0: Process, os: Os)
    ensures Forked(Reading([], p0, true, true), [], p0, os)
  {
  }

  // ----- a file laid out as sections is read as those sections

  function SettingLines(kvs: seq<(string, string)>): (r: seq<Line>)
    ensures |r| == |kvs|
  {
    seq(|kvs|, i requires 0 <= i < |kvs| => Setting(kvs[i].0, kvs[i].1))
  }

  /** Settings before the first header, then each section with its header and its settings. */
  ghost function Layout(preamble: seq<(string, string)>, ss: seq<Section>): seq<Line>
  {
    if ss == [] then SettingLines(preamble)
    else Layout(preamble, ss[..|ss| - 1]) + [Header(ss[|ss| - 1].name)] + SettingLines(ss[|ss| - 1].settings)
  }

  ghost predicate AllApplied(kvs: seq<(string, string)>, os: Os) {
    forall i :: 0 <= i < |kvs| ==> os.option(kvs[i].0, kvs[i].1).Applied?
  }

  lemma SectionsNext(lines: seq<Line>, line: Line, os: Os)
    ensures SectionsIn(lines + [line], os) == Sectioned(SectionsIn(lines, os), line, os)
  {
    assert (lines + [line])[..|lines|] == lines;
  }

  lemma {:induction false} PreambleForgotten(preamble: seq<(string, string)>, os: Os)
    ensures SectionsIn(SettingLines(preamble), os) == []
    decreases |preamble|
  {
    if preamble != [] {
      var n := |preamble| - 1;
      PreambleForgotten(preamble[..n], os);
      assert SettingLines(preamble) == SettingLines(preamble[..n]) + [Setting(preamble[n].0, preamble[n].1)];
      SectionsNext(SettingLines(preamble[..n]), Setting(preamble[n].0, preamble[n].1), os);
    }
  }

  lemma {:induction false} SettingsGathered(lines: seq<Line>, ss: seq<Section>, name: string, kvs: seq<(string, string)>, os: Os)
    requires SectionsIn(lines, os) == ss + [Section(name, [])] && AllApplied(kvs, os)
    ensures SectionsIn(lines + SettingLines(kvs), os) == ss + [Section(name, kvs)]
    decreases |kvs|
  {
    hide SectionsIn;
    if kvs == [] {
      assert lines + SettingLines(kvs) == lines;
    } else {
      var n := |kvs| - 1;
      var line := Setting(kvs[n].0, kvs[n].1);
      SettingsGathered(lines, ss, name, kvs[..n], os);
      assert lines + SettingLines(kvs) == (lines + SettingLines(kvs[..n])) + [line];
      SectionsNext(lines + SettingLines(kvs[..n]), line, os);
      assert kvs[..n] + [kvs[n]] == kvs;
    }
  }

  lemma {:induction false} LayoutSections(preamble: seq<(string, string)>, ss: seq<Section>, os: Os)
    requires forall i :: 0 <= i < |ss| ==> AllApplied(ss[i].settings, os)
    ensures SectionsIn(Layout(preamble, ss), os) == ss
    decreases |ss|
  {
    hide SectionsIn, SettingLines, AllApplied;
    if ss == [] {
      PreambleForgotten(preamble, os);
    } else {
      var n := |ss| - 1;
      LayoutSections(preamble, ss[..n], os);
      SectionsNext(Layout(preamble, ss[..n]), Header(ss[n].name), os);
      SettingsGathered(Layout(preamble, ss[..n]) + [Header(ss[n].name)], ss[..n], ss[n].name, ss[n].settings, os);
      assert ss[..n] + [ss[n]] == ss;
    }
  }

  ghost predicate Acceptable(line: Line, os: Os) {
    !line.Bad? && (line.Setting? ==> !os.option(line.key, line.value).Refused?)
  }

  /** A file is read to its end if and only if every line is in order and every `fork` succeeds. */
  lemma {:induction false} ReadsExactly(p0: Process, lines: seq<Line>, os: Os)
    ensures Read(p0, lines, os).ok <==>
      && (forall i :: 0 <= i < |lines| ==> Acceptable(lines[i], os))
      && (forall n :: 0 <= n < |SectionsIn(lines, os)| - 1 ==> os.fork(n).Some?)
    decreases |lines|
  {
    hide SectionOf, Remembered;
    if lines != [] {
      var before, line := lines[..|lines| - 1], lines[|lines| - 1];
      ReadsExactly(p0, before, os);
      if Read(p0, before, os).ok {
        OneInstanceEach(p0, before, os);
        forall i | 0 <= i < |lines| ensures lines[i] == if i < |before| then before[i] else line {}
      } else {
        assert |SectionsIn(before, os)| <= |SectionsIn(lines, os)|;
        assert forall i :: 0 <= i < |before| ==> before[i] == lines[i];
      }
    }
  }

  /** The first line that is not in order ends the reading, with everything as it was before it. */
  lemma BadLineEnds(p0: Process, lines: seq<Line>, n: nat, os: Os)
    requires n < |lines| && !Acceptable(lines[n], os) && Read(p0, lines[..n], os).ok
    ensures Read(p0, lines, os) == Read(p0, lines[..n], os).(ok := false)
  {
    assert lines[..n + 1][..n] == lines[..n];
    Stopped(p0, lines, n + 1, os);
  }

  lemma {:induction false} LayoutAcceptable(preamble: seq<(string, string)>, ss: seq<Section>, os: Os)
    requires forall i :: 0 <= i < |preamble| ==> !os.option(preamble[i].0, preamble[i].1).Refused?
    requires forall i :: 0 <= i < |ss| ==> AllApplied(ss[i].settings, os)
    ensures forall i :: 0 <= i < |Layout(preamble, ss)| ==> Acceptable(Layout(preamble, ss)[i], os)
    decreases |ss|
  {
    if ss != [] {
      LayoutAcceptable(preamble, ss[..|ss| - 1], os);
    }
  }

  /** `n` sections give `n` instances, the `i`-th with the settings of section `i` and of no other. */
  lemma SectionsBecomeInstances(p0: Process, preamble: seq<(string, string)>, ss: seq<Section>, os: Os)
    requires |ss| > 0 && forall i :: 0 <= i < |ss| ==> AllApplied(ss[i].settings, os)
    requires forall i :: 0 <= i < |preamble| ==> !os.option(preamble[i].0, preamble[i].1).Refused?
    requires forall n :: 0 <= n < |ss| - 1 ==> os.fork(n).Some?
    ensures var r := Read(p0, Layout(preamble, ss), os);
      r.ok && SectionOf(r.children + [r.main]) == ss && |r.children| == |ss| - 1
  {
    hide Read, Layout, SectionsIn, AllApplied, SectionOf;
    var lines := Layout(preamble, ss);
    LayoutSections(preamble, ss, os);
    LayoutAcceptable(preamble, ss, os);
    ReadsExactly(p0, lines, os);
    OneInstanceEach(p0, lines, os);
    SectionsMore(Read(p0, lines, os).children, Read(p0, lines, os).main);
  }

  // ----- SIGHUP

  /** The instances in the order of their sections; the last is the main process, `ids` are the others' process ids. */
  ghost predicate Family(ps: seq<Process>, ids: seq<Pid>, os: Os) {
    && |ps| == |ids| + 1
    && (forall i, j :: 0 <= i < j < |ids| ==> ids[i] != ids[j])
    && (forall i :: 0 <= i < |ids| ==> os.fork(i) == Some(ids[i]))
    && (forall i :: 0 <= i < |ps| ==> ps[i].pids == Remembered(os, i))
  }

  /** A process that starts without children reads itself into a family. */
  lemma ReadsFamily(p0: Process, lines: seq<Line>, os: Os, ids: seq<Pid>)
    requires p0.pids == [] && Read(p0, lines, os).ok && |ids| == |Read(p0, lines, os).children|
    requires forall i, j :: 0 <= i < j < |ids| ==> ids[i] != ids[j]
    requires forall i :: 0 <= i < |ids| ==> os.fork(i) == Some(ids[i])
    ensures Family(Read(p0, lines, os).children + [Read(p0, lines, os).main], ids, os)
  {
    hide Read, SectionsIn, SectionOf, Remembered;
    OneInstanceEach(p0, lines, os);
    assert forall i :: [] + Remembered(os, i) == Remembered(os, i);
  }

  /** The instances that process `i` forwards the signal to. */
  ghost function Targets(ps: seq<Process>, ids: seq<Pid>, i: nat): set<nat>
    requires i < |ps|
  {
    set j | 0 <= j < |ids| && ids[j] in ps[i].pids
  }

  lemma {:induction false} RememberedIs(os: Os, ids: seq<Pid>, n: nat, j: nat)
    requires n <= |ids| && j < |ids|
    requires forall i, k :: 0 <= i < k < |ids| ==> ids[i] != ids[k]
    requires forall i :: 0 <= i < |ids| ==> os.fork(i) == Some(ids[i])
    ensures ids[j] in Remembered(os, n) <==> j < n && os.alloc(j)
    decreases n
  {
    if n > 0 { RememberedIs(os, ids, n - 1, j); }
  }

  /** Exactly the ones forked before it whose id could be stored. */
  lemma TargetsExactly(ps: seq<Process>, ids: seq<Pid>, os: Os, i: nat)
    requires Family(ps, ids, os) && i < |ps|
    ensures Targets(ps, ids, i) == set j | 0 <= j < i && os.alloc(j)
  {
    forall j | 0 <= j < |ids| ensures ids[j] in ps[i].pids <==> j < i && os.alloc(j) {
      RememberedIs(os, ids, i, j);
    }
  }

  /** Signals that are pending, at most one for each process, and the processes whose handler has run. */
  datatype Storm = Storm(pending: set<nat>, handled: set<nat>)

  ghost function Handled(ps: seq<Process>, ids: seq<Pid>, s: Storm, p: nat): Storm
    requires p < |ps|
  {
    Storm(s.pending - {p} + Targets(ps, ids, p), s.handled + {p})
  }

  /** One SIGHUP for the main process, and then handlers in any order. */
  ghost predicate IsStorm(ps: seq<Process>, ids: seq<Pid>, ss: seq<Storm>, picks: seq<nat>)
    requires |ps| == |ids| + 1
  {
    && |ss| == |picks| + 1
    && ss[0] == Storm({|ids|}, {})
    && forall i :: 0 <= i < |picks| ==>
         picks[i] in ss[i].pending && picks[i] < |ps| && ss[i + 1] == Handled(ps, ids, ss[i], picks[i])
  }

  ghost function Weight(s: set<nat>, n: nat): nat
  {
    if n == 0 then 0 else (if n - 1 in s then Pow2(n - 1) else 0) + Weight(s, n - 1)
  }

  lemma {:induction false} WeightBelow(s: set<nat>, n: nat)
    ensures Weight(s, n) < Pow2(n)
    decreases n
  {
    if n > 0 { WeightBelow(s, n - 1); }
  }

  /** Handling a signal weighs less than the signal, whatever it sends on to earlier processes. */
  lemma {:induction false} WeightFalls(s: set<nat>, p: nat, more: set<nat>, n: nat)
    requires p in s && p < n && forall j :: j in more ==> j < p
    ensures Weight(s - {p} + more, n) < Weight(s, n)
    decreases n
  {
    if p == n - 1 {
      WeightBelow(s - {p} + more, n - 1);
    } else {
      WeightFalls(s, p, more, n - 1);
    }
  }

  lemma {:induction false} WeightOfOne(k: nat, n: nat)
    ensures Weight({k}, n) == if k < n then Pow2(k) else 0
    decreases n
  {
    if n > 0 { WeightOfOne(k, n - 1); }
  }

  ghost predicate StormOk(ps: seq<Process>, ids: seq<Pid>, os: Os, s: Storm)
    requires |ps| == |ids| + 1
  {
    var main, all := |ids|, set j | 0 <= j < |ids| && os.alloc(j);
    && s.pending + s.handled <= {main} + all
    && main in s.pending + s.handled
    && (main in s.handled ==> all <= s.pending + s.handled)
  }

  lemma StormStep(ps: seq<Process>, ids: seq<Pid>, os: Os, s: Storm, p: nat)
    requires Family(ps, ids, os) && p in s.pending && p < |ps| && StormOk(ps, ids, os, s)
    ensures StormOk(ps, ids, os, Handled(ps, ids, s, p))
    ensures Weight(Handled(ps, ids, s, p).pending, |ps|) < Weight(s.pending, |ps|)
  {
    TargetsExactly(ps, ids, os, p);
    WeightFalls(s.pending, p, Targets(ps, ids, p), |ps|);
  }

  lemma {:induction false} StormAfter(ps: seq<Process>, ids: seq<Pid>, os: Os, ss: seq<Storm>, picks: seq<nat>, n: nat)
    requires Family(ps, ids, os) && IsStorm(ps, ids, ss, picks) && n <= |picks|
    ensures StormOk(ps, ids, os, ss[n]) && Weight(ss[n].pending, |ps|) + n <= Pow2(|ids|)
    decreases n
  {
    if n == 0 {
      WeightOfOne(|ids|, |ps|);
    } else {
      StormAfter(ps, ids, os, ss, picks, n - 1);
      StormStep(ps, ids, os, ss[n - 1], picks[n - 1]);
    }
  }

  /**
   * A SIGHUP for the main process dies out in every order of delivery, and it has then reached the main process and every
   * instance that could be remembered, and no other.
   */
  lemma SighupReaches(ps: seq<Process>, ids: seq<Pid>, os: Os, ss: seq<Storm>, picks: seq<nat>)
    requires Family(ps, ids, os) && IsStorm(ps, ids, ss, picks)
    ensures |picks| <= Pow2(|ids|)
    ensures ss[|picks|].pending == {} ==>
      ss[|picks|].handled == {|ids|} + set j | 0 <= j < |ids| && os.alloc(j)
    ensures ss[|picks|].pending == {} ==>
      ((forall i :: 0 <= i < |ps| ==> i in ss[|picks|].handled) <==> (forall j :: 0 <= j < |ids| ==> os.alloc(j)))
  {
    StormAfter(ps, ids, os, ss, picks, |picks|);
    var last := ss[|picks|];
    if last.pending == {} {
      forall j | 0 <= j < |ids| ensures j in last.handled <==> os.alloc(j) {}
    }
  }

  /** The process ids that `fork` gave for the first `n` children. */
  ghost function ForkedIds(os: Os, n: nat): (ids: seq<Pid>)
    ensures |ids| == n && forall i :: 0 <= i < n && os.fork(i).Some? ==> ids[i] == os.fork(i).value
  {
    if n == 0 then []
    else ForkedIds(os, n - 1) + [if os.fork(n - 1).Some? then os.fork(n - 1).value else 0]
  }

  /** All the processes a file makes, the main one last. */
  ghost function Processes(p0: Process, lines: seq<string>, os: Os): seq<Process>
  {
    var r := Read(p0, Classified(lines), os); r.children + [r.main]
  }

  ghost predicate DistinctForks(os: Os, n: nat) {
    forall i, j :: 0 <= i < j < n ==> os.fork(i) != os.fork(j)
  }

  lemma FamilyFromFile(p0: Process, lines: seq<string>, os: Os)
    requires p0.pids == [] && Read(p0, Classified(lines), os).ok
    requires DistinctForks(os, |Processes(p0, lines, os)| - 1)
    ensures Family(Processes(p0, lines, os), ForkedIds(os, |Processes(p0, lines, os)| - 1), os)
  {
    hide Read, Classified, SectionsIn, SectionOf, Remembered, ForkedIds;
    var n := |Processes(p0, lines, os)| - 1;
    var ids := ForkedIds(os, n);
    OneInstanceEach(p0, Classified(lines), os);
    forall i, j | 0 <= i < j < n ensures ids[i] != ids[j] {
      assert os.fork(i) == Some(ids[i]) && os.fork(j) == Some(ids[j]);
    }
    ReadsFamily(p0, Classified(lines), os, ids);
  }

  /** From the file to the signal: of the processes a file makes, a SIGHUP reaches the main one and the remembered ones. */
  lemma SighupFromFile(p0: Process, lines: seq<string>, os: Os, ss: seq<Storm>, picks: seq<nat>)
    requires p0.pids == [] && Read(p0, Classified(lines), os).ok
    requires var n := |Processes(p0, lines, os)| - 1;
      DistinctForks(os, n) && IsStorm(Processes(p0, lines, os), ForkedIds(os, n), ss, picks)
    ensures var n := |Processes(p0, lines, os)| - 1;
      && |picks| <= Pow2(n)
      && (ss[|picks|].pending == {} ==>
            && ss[|picks|].handled == {n} + (set j | 0 <= j < n && os.alloc(j))
            && ((forall i :: 0 <= i <= n ==> i in ss[|picks|].handled) <==> (forall j :: 0 <= j < n ==> os.alloc(j))))
  {
    hide Read, Classified, IsStorm, Family, Remembered, Pow2, Processes, ForkedIds, DistinctForks;
    FamilyFromFile(p0, lines, os);
    SighupReaches(Processes(p0, lines, os), ForkedIds(os, |Processes(p0, lines, os)| - 1), os, ss, picks);
  }
}
