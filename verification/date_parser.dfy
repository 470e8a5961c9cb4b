/**
 * The predictor's date parser: re.match(r'(.*)-(.*)-(.*)T(.*):(.*):(.*)', s) followed by
 * int() of the first four groups. Minutes and seconds are matched but never converted.
 */
module DateParser {
  import opened Results
  import opened Text

  /** The six capture groups of the pattern. */
  datatype Groups = Groups(year: string, month: string, day: string, hour: string,
                           minute: string, second: string)

  /** What the parser returns: year, month, day and hour, not yet checked as a date. */
  datatype DateFields = DateFields(year: int, month: int, day: int, hour: int)

  /** Positions of the pattern's literal characters '-', '-', 'T', ':', ':'. */
  datatype Cuts = Cuts(p1: nat, p2: nat, p3: nat, p4: nat, p5: nat)

  /** s up to (not including) its first newline: `.` never matches '\n'. */
  function FirstLine(s: string): (r: string)
    ensures |r| <= |s| && r == s[..|r|]
    ensures forall i :: 0 <= i < |r| ==> r[i] != '\n'
    ensures |r| < |s| ==> s[|r|] == '\n'
  {
    if |s| == 0 || s[0] == '\n' then [] else [s[0]] + FirstLine(s[1..])
  }

  /** The position of the last c in s. */
  function LastIndex(s: string, c: char): (r: Option<nat>)
    ensures r.Some? ==> r.value < |s| && s[r.value] == c
    ensures r.Some? ==> forall j :: r.value < j < |s| ==> s[j] != c
    ensures r.None? ==> forall j :: 0 <= j < |s| ==> s[j] != c
  {
    if |s| == 0 then None
    else if s[|s| - 1] == c then Some(|s| - 1)
    else LastIndex(s[..|s| - 1], c)
  }

  /** `c` places the pattern's literals, in order, inside `line`. */
  predicate IsCuts(line: string, c: Cuts) {
    && c.p1 < c.p2 < c.p3 < c.p4 < c.p5 < |line|
    && line[c.p1] == '-' && line[c.p2] == '-' && line[c.p3] == 'T'
    && line[c.p4] == ':' && line[c.p5] == ':'
  }

  /**
   * A match of the whole pattern against s[..e]: the literals at `c`, no newline inside, and
   * the last group running from c.p5 + 1 to e.
   */
  predicate IsMatch(s: string, c: Cuts, e: nat) {
    && e <= |s|
    && (forall i :: 0 <= i < e ==> s[i] != '\n')
    && IsCuts(s[..e], c)
  }

  predicate Dominated(c: Cuts, d: Cuts) {
    c.p1 <= d.p1 && c.p2 <= d.p2 && c.p3 <= d.p3 && c.p4 <= d.p4 && c.p5 <= d.p5
  }

  /** Each literal as late as the ones after it allow, found from the right. */
  function FindCuts(line: string): (r: Option<Cuts>)
    ensures r.Some? ==> IsCuts(line, r.value)
  {
    match LastIndex(line, ':')
    case None => None
    case Some(p5) =>
      match LastIndex(line[..p5], ':')
      case None => None
      case Some(p4) =>
        match LastIndex(line[..p4], 'T')
        case None => None
        case Some(p3) =>
          match LastIndex(line[..p3], '-')
          case None => None
          case Some(p2) =>
            match LastIndex(line[..p2], '-')
            case None => None
            case Some(p1) => Some(Cuts(p1, p2, p3, p4, p5))
  }

  /** The cuts found are at or after those of every other placement of the literals. */
  lemma FindCutsIsGreatest(line: string, c: Cuts)
    requires IsCuts(line, c)
    ensures FindCuts(line).Some? && Dominated(c, FindCuts(line).value)
  {
    var q5 := LastIndex(line, ':');
    assert q5.Some? && c.p5 <= q5.value;
    var l5 := line[..q5.value];
    assert l5[c.p4] == ':';
    var q4 := LastIndex(l5, ':');
    assert q4.Some? && c.p4 <= q4.value;
    var l4 := l5[..q4.value];
    assert l4[c.p3] == 'T';
    var q3 := LastIndex(l4, 'T');
    assert q3.Some? && c.p3 <= q3.value;
    var l3 := l4[..q3.value];
    assert line[..q4.value] == l4 && line[..q3.value] == l3;
    assert l3[c.p2] == '-';
    var q2 := LastIndex(l3, '-');
    assert q2.Some? && c.p2 <= q2.value;
    var l2 := l3[..q2.value];
    assert line[..q2.value] == l2;
    assert l2[c.p1] == '-';
    var q1 := LastIndex(l2, '-');
    assert q1.Some? && c.p1 <= q1.value;
  }

  /**
   * The match re.match finds. Greedy groups backtrack from the longest first group down, so
   * the match taken is the lexicographically greatest placement; MatchIsGreedy shows the one
   * chosen here is greatest in every position at once, hence that one.
   */
  function MatchCuts(s: string): Option<Cuts> {
    FindCuts(FirstLine(s))
  }

  function Match(s: string): Option<Groups> {
    var line := FirstLine(s);
    GroupsAt(line, FindCuts(line))
  }

  /** The six groups of `line` between the cuts. */
  function GroupsAt(line: string, cuts: Option<Cuts>): Option<Groups>
    requires cuts.Some? ==> IsCuts(line, cuts.value)
  {
    match cuts
    case None => None
    case Some(c) =>
      Some(Groups(line[..c.p1], line[c.p1 + 1..c.p2], line[c.p2 + 1..c.p3],
                  line[c.p3 + 1..c.p4], line[c.p4 + 1..c.p5], line[c.p5 + 1..]))
  }

  /** Every match of s lies within its first line. */
  lemma MatchWithinFirstLine(s: string, c: Cuts, e: nat)
    requires IsMatch(s, c, e)
    ensures e <= |FirstLine(s)| && IsCuts(FirstLine(s), c)
  {
    var line := FirstLine(s);
    assert |line| < |s| ==> s[|line|] == '\n';
    assert line[..e] == s[..e];
  }

  /**
   * The match chosen is a match of s, the last group extends as far as a match can, and
   * every other match has each literal at or before the chosen position; with no match
   * chosen, s has no match at all.
   */
  lemma MatchIsGreedy(s: string)
    ensures MatchCuts(s).Some? ==> IsMatch(s, MatchCuts(s).value, |FirstLine(s)|)
    ensures forall c: Cuts, e: nat :: IsMatch(s, c, e) ==>
      MatchCuts(s).Some? && Dominated(c, MatchCuts(s).value) && e <= |FirstLine(s)|
  {
    var line := FirstLine(s);
    assert s[..|line|] == line;
    forall c: Cuts, e: nat | IsMatch(s, c, e)
      ensures MatchCuts(s).Some? && Dominated(c, MatchCuts(s).value) && e <= |line|
    {
      MatchWithinFirstLine(s, c, e);
      FindCutsIsGreatest(line, c);
    }
  }

  /** The parser: the "Date parsing error" unless there is a match with four integer groups. */
  function ParseDate(s: string): (r: Result<DateFields>)
    ensures r.Err? ==> r.error == DateParseError
    ensures r.Ok? <==> Match(s).Some? && FieldsAreInts(Match(s).value)
  {
    ConvertGroups(Match(s))
  }

  /** int() of the first four groups; minutes and seconds are not looked at. */
  function ConvertGroups(m: Option<Groups>): (r: Result<DateFields>)
    ensures r.Err? ==> r.error == DateParseError
    ensures r.Ok? <==> m.Some? && FieldsAreInts(m.value)
  {
    match m
    case None => Err(DateParseError)
    case Some(g) =>
      match (ParseInt(g.year), ParseInt(g.month), ParseInt(g.day), ParseInt(g.hour))
      case (Some(y), Some(m), Some(d), Some(h)) => Ok(DateFields(y, m, d, h))
      case _ => Err(DateParseError)
  }

  predicate FieldsAreInts(g: Groups) {
    ParseInt(g.year).Some? && ParseInt(g.month).Some? && ParseInt(g.day).Some? && ParseInt(g.hour).Some?
  }

  /** A string no placement of '-', '-', 'T', ':', ':' fits on its first line is rejected. */
  lemma NoMatchIsError(s: string)
    requires forall c: Cuts, e: nat :: !IsMatch(s, c, e)
    ensures ParseDate(s) == Err(DateParseError)
  {
    MatchIsGreedy(s);
  }

  /** The text "<year>-<month>-<day>T<hour>:<minute>:<second>". */
  function DateText(negative: bool, year: string, month: string, day: string, hour: string,
                    minute: string, second: string): string
  {
    Sign(negative) + year + "-" + month + "-" + day + "T" + hour + ":" + minute + ":" + second
  }

  /** c does not occur in s. */
  predicate Free(s: string, c: char) {
    forall i :: 0 <= i < |s| ==> s[i] != c
  }

  lemma LastIndexOfJoin(a: string, c: char, b: string)
    requires Free(b, c)
    ensures LastIndex(a + [c] + b, c) == Some(|a|)
    ensures (a + [c] + b)[..|a|] == a
  {
    var s := a + [c] + b;
    assert s[..|a|] == a;
    assert s[|a|] == c;
    forall j | |a| < j < |s|
      ensures s[j] != c
    {
      assert s[j] == b[j - |a| - 1];
    }
    LastIndexAt(s, c, |a|);
  }

  /** The last c sits at k when s[k] is c and none follows. */
  lemma LastIndexAt(s: string, c: char, k: nat)
    requires k < |s| && s[k] == c
    requires forall j :: k < j < |s| ==> s[j] != c
    ensures LastIndex(s, c) == Some(k)
  {
    assert LastIndex(s, c).Some?;
  }

  lemma FreeJoin(a: string, b: string, c: char)
    requires Free(a, c) && Free(b, c)
    ensures Free(a + b, c)
  {
    assert forall i :: |a| <= i < |a + b| ==> (a + b)[i] == b[i - |a|];
  }

  lemma DigitsFree(s: string, c: char)
    requires AllDigits(s) && !IsDigit(c)
    ensures Free(s, c)
  {
  }

  /** The literals of a date text sit right after each field. */
  lemma CutsOfDateText(a1: string, month: string, day: string, hour: string,
                       minute: string, second: string)
    requires AllDigits(month) && AllDigits(day) && AllDigits(hour)
    requires Free(minute, ':') && Free(second, ':')
    ensures var a2 := a1 + "-" + month;
      var a3 := a2 + "-" + day;
      var a4 := a3 + "T" + hour;
      var a5 := a4 + ":" + minute;
      FindCuts(a5 + ":" + second) == Some(Cuts(|a1|, |a2|, |a3|, |a4|, |a5|))
  {
    var a2 := a1 + "-" + month;
    var a3 := a2 + "-" + day;
    var a4 := a3 + "T" + hour;
    var a5 := a4 + ":" + minute;
    var s := a5 + ":" + second;
    DigitsFree(month, '-');
    DigitsFree(day, '-');
    DigitsFree(hour, 'T');
    LastIndexOfJoin(a5, ':', second);
    LastIndexOfJoin(a4, ':', minute);
    LastIndexOfJoin(a3, 'T', hour);
    LastIndexOfJoin(a2, '-', day);
    LastIndexOfJoin(a1, '-', month);
    assert LastIndex(s, ':') == Some(|a5|);
    assert s[..|a5|] == a5;
    assert LastIndex(s[..|a5|], ':') == Some(|a4|);
    assert s[..|a4|] == a4;
    assert LastIndex(s[..|a4|], 'T') == Some(|a3|);
    assert s[..|a3|] == a3;
    assert LastIndex(s[..|a3|], '-') == Some(|a2|);
    assert s[..|a2|] == a2;
    assert LastIndex(s[..|a2|], '-') == Some(|a1|);
  }

  /** A date text whose minutes and seconds hold no newline is a single line. */
  lemma OneLineDateText(negative: bool, year: string, month: string, day: string, hour: string,
                        minute: string, second: string)
    requires AllDigits(year) && AllDigits(month) && AllDigits(day) && AllDigits(hour)
    requires Free(minute, '\n') && Free(second, '\n')
    ensures var s := DateText(negative, year, month, day, hour, minute, second);
      FirstLine(s) == s
  {
    var a1 := Sign(negative) + year;
    var a2 := a1 + "-" + month;
    var a3 := a2 + "-" + day;
    var a4 := a3 + "T" + hour;
    var a5 := a4 + ":" + minute;
    var s := a5 + ":" + second;
    DigitsFree(year, '\n');
    DigitsFree(month, '\n');
    DigitsFree(day, '\n');
    DigitsFree(hour, '\n');
    FreeJoin(Sign(negative), year, '\n');
    FreeJoin(a1, "-", '\n');
    FreeJoin(a1 + "-", month, '\n');
    FreeJoin(a2, "-", '\n');
    FreeJoin(a2 + "-", day, '\n');
    FreeJoin(a3, "T", '\n');
    FreeJoin(a3 + "T", hour, '\n');
    FreeJoin(a4, ":", '\n');
    FreeJoin(a4 + ":", minute, '\n');
    FreeJoin(a5, ":", '\n');
    FreeJoin(a5 + ":", second, '\n');
    FirstLineOfOneLine(s);
  }

  /** Where the literals of a date text sit. */
  function DateCuts(negative: bool, year: string, month: string, day: string, hour: string,
                    minute: string): Cuts
  {
    var p1 := |Sign(negative)| + |year|;
    var p2 := p1 + 1 + |month|;
    var p3 := p2 + 1 + |day|;
    var p4 := p3 + 1 + |hour|;
    Cuts(p1, p2, p3, p4, p4 + 1 + |minute|)
  }

  /** The text between the literals of a date text is its fields. */
  lemma SlicesOfDateText(negative: bool, year: string, month: string, day: string, hour: string,
                         minute: string, second: string)
    ensures var s := DateText(negative, year, month, day, hour, minute, second);
      var c := DateCuts(negative, year, month, day, hour, minute);
      && c.p5 < |s|
      && s[..c.p1] == Sign(negative) + year && s[c.p1 + 1..c.p2] == month
      && s[c.p2 + 1..c.p3] == day && s[c.p3 + 1..c.p4] == hour
      && s[c.p4 + 1..c.p5] == minute && s[c.p5 + 1..] == second
  {
    var a1 := Sign(negative) + year;
    var a2 := a1 + "-" + month;
    var a3 := a2 + "-" + day;
    var a4 := a3 + "T" + hour;
    var a5 := a4 + ":" + minute;
    var s := a5 + ":" + second;
    assert s == DateText(negative, year, month, day, hour, minute, second);
    Join(a5, ':', second);
    Join(a4, ':', minute);
    Nest(s, |a4|, |a5|);
    Join(a3, 'T', hour);
    Nest(s, |a3|, |a4|);
    Join(a2, '-', day);
    Nest(s, |a2|, |a3|);
    Join(a1, '-', month);
    Nest(s, |a1|, |a2|);
  }

  /** The literals of a date text are found where they were written. */
  lemma FindCutsOfDateText(negative: bool, year: string, month: string, day: string, hour: string,
                           minute: string, second: string)
    requires AllDigits(month) && AllDigits(day) && AllDigits(hour)
    requires Free(minute, ':') && Free(second, ':')
    ensures FindCuts(DateText(negative, year, month, day, hour, minute, second))
         == Some(DateCuts(negative, year, month, day, hour, minute))
  {
    var a1 := Sign(negative) + year;
    CutsOfDateText(a1, month, day, hour, minute, second);
    assert DateText(negative, year, month, day, hour, minute, second)
        == a1 + "-" + month + "-" + day + "T" + hour + ":" + minute + ":" + second;
  }

  /** The groups of a one-line date text are its fields. */
  lemma MatchOfDateText(negative: bool, year: string, month: string, day: string, hour: string,
                        minute: string, second: string)
    requires AllDigits(year) && AllDigits(month) && AllDigits(day) && AllDigits(hour)
    requires Free(minute, ':') && Free(minute, '\n') && Free(second, ':') && Free(second, '\n')
    ensures Match(DateText(negative, year, month, day, hour, minute, second))
         == Some(Groups(Sign(negative) + year, month, day, hour, minute, second))
  {
    var s := DateText(negative, year, month, day, hour, minute, second);
    var c := DateCuts(negative, year, month, day, hour, minute);
    var g := Groups(Sign(negative) + year, month, day, hour, minute, second);
    LineAndCutsOfDateText(negative, year, month, day, hour, minute, second);
    GroupsOfDateText(negative, year, month, day, hour, minute, second);
    assert Match(s) == GroupsAt(s, Some(c));
  }

  lemma LineAndCutsOfDateText(negative: bool, year: string, month: string, day: string,
                              hour: string, minute: string, second: string)
    requires AllDigits(year) && AllDigits(month) && AllDigits(day) && AllDigits(hour)
    requires Free(minute, ':') && Free(minute, '\n') && Free(second, ':') && Free(second, '\n')
    ensures var s := DateText(negative, year, month, day, hour, minute, second);
      && FirstLine(s) == s
      && FindCuts(s) == Some(DateCuts(negative, year, month, day, hour, minute))
      && IsCuts(s, DateCuts(negative, year, month, day, hour, minute))
  {
    OneLineDateText(negative, year, month, day, hour, minute, second);
    FindCutsOfDateText(negative, year, month, day, hour, minute, second);
  }

  lemma GroupsOfDateText(negative: bool, year: string, month: string, day: string,
                         hour: string, minute: string, second: string)
    requires IsCuts(DateText(negative, year, month, day, hour, minute, second),
                    DateCuts(negative, year, month, day, hour, minute))
    ensures GroupsAt(DateText(negative, year, month, day, hour, minute, second),
                     Some(DateCuts(negative, year, month, day, hour, minute)))
         == Some(Groups(Sign(negative) + year, month, day, hour, minute, second))
  {
    SlicesOfDateText(negative, year, month, day, hour, minute, second);
    GroupsBetweenCuts(DateText(negative, year, month, day, hour, minute, second),
                      DateCuts(negative, year, month, day, hour, minute),
                      Groups(Sign(negative) + year, month, day, hour, minute, second));
  }

  lemma GroupsBetweenCuts(line: string, c: Cuts, g: Groups)
    requires IsCuts(line, c)
    requires line[..c.p1] == g.year && line[c.p1 + 1..c.p2] == g.month
    requires line[c.p2 + 1..c.p3] == g.day && line[c.p3 + 1..c.p4] == g.hour
    requires line[c.p4 + 1..c.p5] == g.minute && line[c.p5 + 1..] == g.second
    ensures GroupsAt(line, Some(c)) == Some(g)
  {
  }

  /** In a string that starts with p + [c] + x, the field after c is x and p is a prefix. */
  lemma Join(p: string, c: char, x: string)
    ensures (p + [c] + x)[..|p|] == p && (p + [c] + x)[|p| + 1..] == x
  {
  }

  /** The slices of a prefix are slices of the whole. */
  lemma Nest(s: string, i: nat, j: nat)
    requires i < j <= |s|
    ensures s[..j][..i] == s[..i] && s[..j][i + 1..] == s[i + 1..j]
  {
  }

  /**
   * The round trip: numerals for year (optionally negative), month, day and hour, and minutes
   * and seconds holding no ':' and no newline, parse back to the four values.
   */
  lemma ParseDateRoundTrip(negative: bool, year: string, month: string, day: string,
                           hour: string, minute: string, second: string)
    requires |year| > 0 && AllDigits(year) && |month| > 0 && AllDigits(month)
    requires |day| > 0 && AllDigits(day) && |hour| > 0 && AllDigits(hour)
    requires Free(minute, ':') && Free(minute, '\n') && Free(second, ':') && Free(second, '\n')
    ensures ParseDate(DateText(negative, year, month, day, hour, minute, second))
         == Ok(DateFields(SignedValue(negative, year), DigitsValue(month), DigitsValue(day),
                          DigitsValue(hour)))
  {
    MatchOfDateText(negative, year, month, day, hour, minute, second);
    ConvertNumerals(negative, year, month, day, hour, minute, second);
  }

  lemma ConvertNumerals(negative: bool, year: string, month: string, day: string,
                        hour: string, minute: string, second: string)
    requires |year| > 0 && AllDigits(year) && |month| > 0 && AllDigits(month)
    requires |day| > 0 && AllDigits(day) && |hour| > 0 && AllDigits(hour)
    ensures ConvertGroups(Some(Groups(Sign(negative) + year, month, day, hour, minute, second)))
         == Ok(DateFields(SignedValue(negative, year), DigitsValue(month), DigitsValue(day),
                          DigitsValue(hour)))
  {
    ParseSignedDigits(negative, year);
    ParseDigits(month);
    ParseDigits(day);
    ParseDigits(hour);
    ConvertInts(Groups(Sign(negative) + year, month, day, hour, minute, second),
                SignedValue(negative, year), DigitsValue(month), DigitsValue(day), DigitsValue(hour));
  }

  lemma ConvertInts(g: Groups, y: int, m: int, d: int, h: int)
    requires ParseInt(g.year) == Some(y) && ParseInt(g.month) == Some(m)
    requires ParseInt(g.day) == Some(d) && ParseInt(g.hour) == Some(h)
    ensures ConvertGroups(Some(g)) == Ok(DateFields(y, m, d, h))
  {
  }

  lemma {:induction false} FirstLineOfOneLine(s: string)
    requires Free(s, '\n')
    ensures FirstLine(s) == s
  {
    if |s| > 0 {
      FirstLineOfOneLine(s[1..]);
    }
  }

  /** In particular int(str(...)) fields: str(y)-str(m)-str(d)Tstr(h):mm:ss parses to (y, m, d, h). */
  lemma ParseFormattedDate(year: int, month: nat, day: nat, hour: nat, minute: string, second: string)
    requires Free(minute, ':') && Free(minute, '\n') && Free(second, ':') && Free(second, '\n')
    ensures ParseDate(IntToString(year) + "-" + NatToString(month) + "-" + NatToString(day) + "T"
                      + NatToString(hour) + ":" + minute + ":" + second)
         == Ok(DateFields(year, month, day, hour))
  {
    var magnitude: nat := if year < 0 then -year else year;
    ParseDateRoundTrip(year < 0, NatToString(magnitude), NatToString(month), NatToString(day),
                       NatToString(hour), minute, second);
    assert IntToString(year) == Sign(year < 0) + NatToString(magnitude);
  }
}
