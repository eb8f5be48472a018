/** The per-line pipeline of addLastNBytes: column skip, minimum and maximum
    length, must-contain, must-not-contain, truncation and highlighting, in
    that order, and the text the surviving lines make. */
module LineFilter {
  import opened Wrappers

  /** The filter parameters of one request, already parsed. A string
      parameter that is missing or empty is `[]`; an integer one is `None`. */
  datatype FilterSpec = FilterSpec(
    startLineAt: Option<int>,
    lineMinLength: Option<int>,
    lineMaxLength: Option<int>,
    lineContains: string,
    notLineContains: string,
    trimToSize: Option<int>,
    colorLineBegin: string)

  const HighlightOpen: string := "<span style='color:red;font-weight:bold'>"
  const HighlightClose: string := "</span>"
  const LineBreak: string := "<br>"

  /** `t` occurs in `s` at index `i`. */
  predicate OccursAt(s: string, t: string, i: int)
  {
    0 <= i && i + |t| <= |s| && s[i..i + |t|] == t
  }

  /** Java's String.contains. */
  predicate Contains(s: string, t: string)
    decreases |s|
  {
    |t| <= |s| && (s[..|t|] == t || (|s| > 0 && Contains(s[1..], t)))
  }

  lemma {:induction false} ContainsIff(s: string, t: string)
    ensures Contains(s, t) <==> exists i :: OccursAt(s, t, i)
    decreases |s|
  {
    if |t| > |s| {
    } else if s[..|t|] == t {
      assert OccursAt(s, t, 0);
    } else {
      assert |s| > 0;
      ContainsIff(s[1..], t);
      if Contains(s[1..], t) {
        var j :| OccursAt(s[1..], t, j);
        assert s[j + 1..j + 1 + |t|] == s[1..][j..j + |t|];
        assert OccursAt(s, t, j + 1);
      }
      if i :| OccursAt(s, t, i) {
        assert i != 0;
        assert s[1..][i - 1..i - 1 + |t|] == s[i..i + |t|];
        assert OccursAt(s[1..], t, i - 1);
      }
    }
  }

  function StartAt(f: FilterSpec): int
  {
    match f.startLineAt
    case Some(n) => n
    case None => 0
  }

  /** Stage 1, the column skip: with a positive start column, a line longer
      than it loses its first `startAt` characters and any other line is
      dropped; otherwise the line passes unchanged. */
  function SkipColumns(line: string, startAt: int): (r: Option<string>)
    ensures startAt <= 0 ==> r == Some(line)
    ensures startAt > 0 ==> (r.None? <==> |line| <= startAt)
    ensures r.Some? && startAt > 0 ==> |r.value| == |line| - startAt
    ensures r.Some? ==> line == line[..|line| - |r.value|] + r.value
  {
    if startAt > 0 then
      if |line| > startAt then Some(line[startAt..]) else None
    else Some(line)
  }

  /** The constraints of stages 2 to 5 on the skipped line; an absent
      parameter constrains nothing. */
  predicate Admits(s: string, f: FilterSpec)
  {
    && (f.lineMinLength.None? || |s| >= f.lineMinLength.value)
    && (f.lineMaxLength.None? || |s| <= f.lineMaxLength.value)
    && (f.lineContains == [] || Contains(s, f.lineContains))
    && (f.notLineContains == [] || !Contains(s, f.notLineContains))
  }

  /** Stages 1 to 5: the line after the column skip, if no stage drops it. */
  function Select(line: string, f: FilterSpec): (r: Option<string>)
    ensures r.Some? <==> SkipColumns(line, StartAt(f)).Some? && Admits(SkipColumns(line, StartAt(f)).value, f)
    ensures r.Some? ==> r == SkipColumns(line, StartAt(f))
  {
    match SkipColumns(line, StartAt(f))
    case None => None
    case Some(s) =>
      if f.lineMinLength.Some? && |s| < f.lineMinLength.value then None
      else if f.lineMaxLength.Some? && |s| > f.lineMaxLength.value then None
      else if f.lineContains != [] && !Contains(s, f.lineContains) then None
      else if f.notLineContains != [] && Contains(s, f.notLineContains) then None
      else Some(s)
  }

  /** A line that holds `notLineContains` is dropped, whatever `lineContains` says. */
  lemma NotLineContainsWins(line: string, f: FilterSpec, i: int)
    requires f.notLineContains != []
    requires SkipColumns(line, StartAt(f)).Some?
    requires OccursAt(SkipColumns(line, StartAt(f)).value, f.notLineContains, i)
    ensures Select(line, f) == None
  {
    ContainsIff(SkipColumns(line, StartAt(f)).value, f.notLineContains);
  }

  /** A kept line holds `lineContains` and does not hold `notLineContains`. */
  lemma SelectedOccurrences(line: string, f: FilterSpec)
    requires Select(line, f).Some?
    ensures f.lineContains != [] ==> exists i :: OccursAt(Select(line, f).value, f.lineContains, i)
    ensures f.notLineContains != [] ==> forall i :: !OccursAt(Select(line, f).value, f.notLineContains, i)
  {
    ContainsIff(Select(line, f).value, f.lineContains);
    ContainsIff(Select(line, f).value, f.notLineContains);
  }

  /** Stage 6, substring(0, n): it fails, rather than clamps, when n is
      negative or longer than the line. */
  function Truncate(s: string, trimToSize: Option<int>): (r: Option<string>)
    ensures trimToSize.None? ==> r == Some(s)
    ensures r.None? <==> trimToSize.Some? && !(0 <= trimToSize.value <= |s|)
    ensures r.Some? && trimToSize.Some? ==> |r.value| == trimToSize.value && r.value <= s
  {
    match trimToSize
    case None => Some(s)
    case Some(n) => if 0 <= n <= |s| then Some(s[..n]) else None
  }

  /** How many leading characters the highlight covers: 10, or 1 for a line
      shorter than 10. */
  function PrefixLength(s: string): nat
  {
    if |s| < 10 then 1 else 10
  }

  /** Stage 7: the prefix, escaped and wrapped in a red bold span, then the
      escaped rest. `esc` stands for StringEscapeUtils.escapeHtml4. It fails
      on an empty line, whose one-character prefix does not exist. */
  function Highlight(s: string, esc: string -> string): (r: Option<string>)
    ensures r.None? <==> s == []
    ensures r.Some? ==>
      && PrefixLength(s) <= |s|
      && r.value == HighlightOpen + esc(s[..PrefixLength(s)]) + HighlightClose + esc(s[PrefixLength(s)..])
  {
    var k := PrefixLength(s);
    if k <= |s| then Some(HighlightOpen + esc(s[..k]) + HighlightClose + esc(s[k..])) else None
  }

  /** Stages 6 and 7 on a line that was kept. */
  function Shape(s: string, f: FilterSpec, esc: string -> string): (r: Option<string>)
    ensures r.None? <==>
      || Truncate(s, f.trimToSize).None?
      || (f.colorLineBegin == "true" && Truncate(s, f.trimToSize) == Some([]))
    ensures f.colorLineBegin != "true" ==> r == Truncate(s, f.trimToSize)
    ensures f.colorLineBegin == "true" && Truncate(s, f.trimToSize).Some? ==>
      r == Highlight(Truncate(s, f.trimToSize).value, esc)
  {
    match Truncate(s, f.trimToSize)
    case None => None
    case Some(u) => if f.colorLineBegin == "true" then Highlight(u, esc) else Some(u)
  }

  /** What the loop body does with one line: append a text, skip the line
      (`continue`), or throw. */
  datatype Outcome = Emit(text: string) | Drop | Fail

  function FilterLine(line: string, f: FilterSpec, esc: string -> string): Outcome
  {
    match Select(line, f)
    case None => Drop
    case Some(s) =>
      match Shape(s, f, esc)
      case None => Fail
      case Some(t) => Emit(t)
  }

  /** Column skip, then truncation, then highlighting: "abcdefghij" with
      startLineAt 2 and trimToSize 5 becomes "cdefg", of which only "c" is
      highlighted because it is shorter than 10. */
  lemma FilterOrderExample(esc: string -> string)
    ensures FilterLine("abcdefghij",
      FilterSpec(Some(2), None, None, [], [], Some(5), "true"), esc)
      == Emit(HighlightOpen + esc("c") + HighlightClose + esc("defg"))
  {
    var f := FilterSpec(Some(2), None, None, [], [], Some(5), "true");
    assert SkipColumns("abcdefghij", 2) == Some("cdefghij");
    assert Select("abcdefghij", f) == Some("cdefghij");
    assert "cdefghij"[..5] == "cdefg";
    assert Truncate("cdefghij", Some(5)) == Some("cdefg");
    assert "cdefg"[..1] == "c" && "cdefg"[1..] == "defg";
  }

  function Prepend(s: string, r: Option<string>): Option<string>
  {
    match r
    case None => None
    case Some(t) => Some(s + t)
  }

  /** The text the loop builds from `lines`: each emitted text followed by
      "<br>", in order; None when some line throws. */
  function Render(lines: seq<string>, f: FilterSpec, esc: string -> string): (r: Option<string>)
    ensures r.None? <==> exists i :: 0 <= i < |lines| && FilterLine(lines[i], f, esc).Fail?
    decreases |lines|
  {
    if lines == [] then Some([])
    else
      match FilterLine(lines[0], f, esc)
      case Fail => None
      case Drop => Render(lines[1..], f, esc)
      case Emit(t) => Prepend(t + LineBreak, Render(lines[1..], f, esc))
  }

  function Join(x: Option<string>, y: Option<string>): Option<string>
  {
    match x
    case None => None
    case Some(s) => Prepend(s, y)
  }

  /** The text of two runs of lines is the text of the first followed by the
      text of the second. */
  lemma {:induction false} RenderAppend(a: seq<string>, b: seq<string>, f: FilterSpec, esc: string -> string)
    ensures Render(a + b, f, esc) == Join(Render(a, f, esc), Render(b, f, esc))
    decreases |a|
  {
    if a == [] {
      assert a + b == b;
      match Render(b, f, esc)
      case None =>
      case Some(t) => assert [] + t == t;
    } else {
      assert (a + b)[0] == a[0];
      assert (a + b)[1..] == a[1..] + b;
      RenderAppend(a[1..], b, f, esc);
      match FilterLine(a[0], f, esc)
      case Fail =>
      case Drop =>
      case Emit(t) =>
        match Render(a[1..], f, esc)
        case None =>
        case Some(x) =>
          match Render(b, f, esc)
          case None =>
          case Some(y) => assert (t + LineBreak) + (x + y) == (t + LineBreak + x) + y;
    }
  }
}
