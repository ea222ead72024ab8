/** Evaluating a rune over named string values
    (nostream-share/src/utils/runes). */
module RuneTests {
  import opened Wrappers
  import opened Runes

  type Values = map<string, string>

  datatype Why =
    | IsMissing | IsPresent
    | Differs(expected: string) | Equals(excluded: string)
    | DoesNotStartWith(start: string) | DoesNotEndWith(end: string) | DoesNotContain(part: string)
    | NotAnInteger | NotAValidInteger | AtLeast(least: int) | AtMost(most: int)
    | SameOrAfter(upper: string) | SameOrBefore(lower: string)

  datatype Reason = Reason(field: string, why: Why)

  // ---- comparisons of the conditions ----

  predicate EndsWith(s: string, end: string) {
    |end| <= |s| && s[|s| - |end|..] == end
  }

  predicate Contains(s: string, part: string) {
    exists i :: 0 <= i <= |s| && part <= s[i..]
  }

  /** String order by code units. */
  predicate Before(a: string, b: string) {
    b != "" && (a == "" || a[0] < b[0] || (a[0] == b[0] && Before(a[1..], b[1..])))
  }

  function DigitValue(c: char): int {
    if '0' <= c <= '9' then c as int - '0' as int
    else if 'a' <= c <= 'z' then c as int - 'a' as int + 10
    else if 'A' <= c <= 'Z' then c as int - 'A' as int + 10
    else 36
  }

  function LeadingNumber(s: string, radix: int, read: int): int {
    if s == "" || DigitValue(s[0]) >= radix then read
    else LeadingNumber(s[1..], radix, radix * read + DigitValue(s[0]))
  }

  function AfterSpace(s: string): string {
    if s != "" && IsSpace(s[0]) then AfterSpace(s[1..]) else s
  }

  function Magnitude(s: string): Option<int> {
    var hexadecimal := |s| >= 2 && s[0] == '0' && (s[1] == 'x' || s[1] == 'X');
    var radix, digits := if hexadecimal then 16 else 10, if hexadecimal then s[2..] else s;
    if digits == "" || DigitValue(digits[0]) >= radix then None else Some(LeadingNumber(digits, radix, 0))
  }

  /** `Number.parseInt`: leading whitespace, a sign, a hexadecimal mark, then
      as many digits as there are. */
  function ParseInt(s: string): Option<int> {
    var text := AfterSpace(s);
    var negative := text != "" && text[0] == '-';
    var unsigned := if text != "" && (text[0] == '-' || text[0] == '+') then text[1..] else text;
    match Magnitude(unsigned)
    case None => None
    case Some(n) => Some(if negative then -n else n)
  }

  // ---- one alternative ----

  function Compare(cond: char, val: string, value: string): Option<Why> {
    match cond
    case '!' => Some(IsPresent)
    case '=' => if val == value then None else Some(Differs(value))
    case '/' => if val != value then None else Some(Equals(value))
    case '^' => if value <= val then None else Some(DoesNotStartWith(value))
    case '$' => if EndsWith(val, value) then None else Some(DoesNotEndWith(value))
    case '~' => if Contains(val, value) then None else Some(DoesNotContain(value))
    case '{' => if Before(val, value) then None else Some(SameOrAfter(value))
    case '}' => if Before(value, val) then None else Some(SameOrBefore(value))
    case _ =>
      match (ParseInt(val), ParseInt(value))
      case (None, _) => Some(NotAnInteger)
      case (_, None) => Some(NotAValidInteger)
      case (Some(actual), Some(bound)) =>
        if cond == '<' then (if actual < bound then None else Some(AtLeast(bound)))
        else (if actual > bound then None else Some(AtMost(bound)))
  }

  function TestAlternative(a: Alternative, values: Values): Option<Reason> {
    if a.cond == '#' then None
    else
      var why := if a.field in values then Compare(a.cond, values[a.field], a.value)
                 else if a.cond == '!' then None else Some(IsMissing);
      if why.None? then None else Some(Reason(a.field, why.value))
  }

  predicate Passes(a: Alternative, values: Values) {
    TestAlternative(a, values).None?
  }

  ghost predicate SomePasses(r: Restriction, values: Values) {
    exists i :: 0 <= i < |r| && Passes(r[i], values)
  }

  /** A conjunction of disjunctions. */
  ghost predicate Satisfied(r: Rune, values: Values) {
    forall i :: 0 <= i < |r| ==> SomePasses(r[i], values)
  }

  /** The reasons of a restriction none of whose alternatives passes. */
  ghost predicate ReasonsOf(r: Restriction, values: Values, reasons: seq<Reason>) {
    |reasons| == |r| && forall i :: 0 <= i < |r| ==> TestAlternative(r[i], values) == Some(reasons[i])
  }

  // ---- the evaluators ----

  /** Nothing if some alternative passes, else every alternative's reason in
      order. */
  method TestRestriction(r: Restriction, values: Values) returns (result: Option<seq<Reason>>)
    ensures result.None? <==> SomePasses(r, values)
    ensures result.Some? ==> ReasonsOf(r, values, result.value)
  {
    var reasons: seq<Reason> := [];
    for i := 0 to |r|
      invariant ReasonsOf(r[..i], values, reasons)
    {
      var reason := TestAlternative(r[i], values);
      if reason.None? {
        assert Passes(r[i], values);
        return None;
      }
      reasons := reasons + [reason.value];
    }
    assert r[..|r|] == r;
    result := Some(reasons);
  }

  /** A rune passes exactly when each restriction has a passing alternative; it
      fails with the reasons of the first restriction that has none. */
  method TestRune(r: Rune, values: Values) returns (passes: bool, reasons: seq<Reason>)
    ensures passes <==> Satisfied(r, values)
    ensures passes ==> reasons == []
    ensures !passes ==> exists i :: 0 <= i < |r| && ReasonsOf(r[i], values, reasons)
                                    && Satisfied(r[..i], values) && !SomePasses(r[i], values)
  {
    for i := 0 to |r|
      invariant Satisfied(r[..i], values)
    {
      var result := TestRestriction(r[i], values);
      if result.Some? {
        return false, result.value;
      }
    }
    assert r[..|r|] == r;
    return true, [];
  }

  /** Further restrictions only narrow what a rune allows: both parts must
      pass. */
  lemma AppendingNarrows(a: Rune, b: Rune, values: Values)
    ensures Satisfied(a + b, values) <==> Satisfied(a, values) && Satisfied(b, values)
  {
    if Satisfied(a + b, values) {
      forall i | 0 <= i < |a| ensures SomePasses(a[i], values) { assert (a + b)[i] == a[i]; }
      forall i | 0 <= i < |b| ensures SomePasses(b[i], values) { assert (a + b)[|a| + i] == b[i]; }
    }
  }

  /** Further alternatives only widen a restriction. */
  lemma AlternativesWiden(r: Restriction, s: Restriction, values: Values)
    ensures SomePasses(r + s, values) <==> SomePasses(r, values) || SomePasses(s, values)
  {
    if SomePasses(r, values) {
      var i :| 0 <= i < |r| && Passes(r[i], values);
      assert (r + s)[i] == r[i];
    }
    if SomePasses(s, values) {
      var i :| 0 <= i < |s| && Passes(s[i], values);
      assert (r + s)[|r| + i] == s[i];
    }
  }

  /** Appending restrictions to the text of a rune narrows what it allows. */
  lemma TextNarrows(a: Rune, b: Rune, values: Values)
    requires LegalRune(a) && LegalRune(b) && SpacelessRune(a) && SpacelessRune(b) && a != [] && b != []
    ensures var joined := FromText(Encode(a) + "&" + Encode(b));
      joined.Ok? && (Satisfied(joined.value, values) <==> Satisfied(a, values) && Satisfied(b, values))
  {
    JoinedText(a, b);
    AppendingNarrows(a, b, values);
  }
}
