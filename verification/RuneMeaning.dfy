/** What the text of a rune and its conditions mean, told without the parser and
    the evaluator (nostream-share/src/utils/runes/alternative.ts). */
module RuneMeaning {
  import opened Wrappers
  import opened Decimals
  import opened Runes
  import opened RuneTests

  // ---- the text of a value ----

  /** One character of a value as a text may write it: as it is, when it is not
      special, or behind a backslash. */
  datatype Piece = Raw(c: char) | Escaped(c: char)

  predicate Writable(pieces: seq<Piece>) {
    forall i :: 0 <= i < |pieces| && pieces[i].Raw? ==> pieces[i].c != '\\' && pieces[i].c != '|' && pieces[i].c != '&'
  }

  function PieceText(p: Piece): string {
    if p.Raw? then [p.c] else ['\\', p.c]
  }

  function TextOf(pieces: seq<Piece>): string {
    if pieces == [] then "" else PieceText(pieces[0]) + TextOf(pieces[1..])
  }

  function ValueOf(pieces: seq<Piece>): string {
    if pieces == [] then "" else [pieces[0].c] + ValueOf(pieces[1..])
  }

  lemma ReadPiece(p: Piece, text: string)
    requires p.Raw? ==> p.c != '\\' && p.c != '|' && p.c != '&'
    ensures ReadValue(PieceText(p) + text) == ([p.c] + ReadValue(text).0, ReadValue(text).1)
  {
    assert ([p.c] + text)[1..] == text;
    assert (['\\', p.c] + text)[2..] == text;
  }

  lemma Regroup(a: string, b: string, c: string)
    ensures a + b + c == a + (b + c)
  {
  }

  /** Reading takes backslashes off, up to the end, behind a bar, or before an
      ampersand. */
  lemma {:induction false} ReadPieces(pieces: seq<Piece>, tail: string)
    requires Writable(pieces)
    ensures ReadValue(TextOf(pieces) + tail) == (ValueOf(pieces) + ReadValue(tail).0, ReadValue(tail).1)
  {
    if pieces == [] {
      assert "" + tail == tail && "" + ReadValue(tail).0 == ReadValue(tail).0;
    } else {
      ReadPieces(pieces[1..], tail);
      ReadPiece(pieces[0], TextOf(pieces[1..]) + tail);
      Regroup(PieceText(pieces[0]), TextOf(pieces[1..]), tail);
      Regroup([pieces[0].c], ValueOf(pieces[1..]), ReadValue(tail).0);
    }
  }

  /** The four ways in which a value can end, a lone backslash among them, which
      adds the text "undefined". */
  lemma ReadEnds(pieces: seq<Piece>, rest: string)
    requires Writable(pieces)
    ensures ReadValue(TextOf(pieces)) == (ValueOf(pieces), "")
    ensures ReadValue(TextOf(pieces) + "|" + rest) == (ValueOf(pieces), rest)
    ensures ReadValue(TextOf(pieces) + "&" + rest) == (ValueOf(pieces), "&" + rest)
    ensures ReadValue(TextOf(pieces) + "\\") == (ValueOf(pieces) + "undefined", "")
  {
    var text, value := TextOf(pieces), ValueOf(pieces);
    assert text + "" == text && value + "" == value;
    ReadPieces(pieces, "");
    ReadPieces(pieces, "|" + rest);
    ReadPieces(pieces, "&" + rest);
    ReadPieces(pieces, "\\");
    assert text + "|" + rest == text + ("|" + rest) && text + "&" + rest == text + ("&" + rest);
    assert ("|" + rest)[1..] == rest;
  }

  /** Every text is pieces followed by one of those ends. */
  lemma {:induction false} EveryText(s: string) returns (pieces: seq<Piece>, tail: string)
    ensures Writable(pieces) && s == TextOf(pieces) + tail
    ensures tail == "" || tail[0] == '|' || tail[0] == '&' || tail == "\\"
    decreases |s|
  {
    pieces, tail := [], s;
    if s != "" && s[0] != '|' && s[0] != '&' && s != "\\" {
      var p := if s[0] == '\\' then Escaped(s[1]) else Raw(s[0]);
      var n := if s[0] == '\\' then 2 else 1;
      var more: seq<Piece>;
      more, tail := EveryText(s[n..]);
      pieces := [p] + more;
      assert pieces[1..] == more;
      assert s == s[..n] + s[n..] && s[..n] == PieceText(p);
    }
  }

  // ---- whitespace ----

  /** Tab to carriage return, space, and the Unicode spaces of ECMAScript. */
  predicate Whitespace(c: char) {
    var n := c as int;
    || 9 <= n <= 13 || n == 32 || n == 0xA0 || n == 0x1680 || 0x2000 <= n <= 0x200A || n == 0x2028 || n == 0x2029
    || n == 0x202F || n == 0x205F || n == 0x3000 || n == 0xFEFF
  }

  lemma WhitespaceIs(c: char)
    ensures IsSpace(c) <==> Whitespace(c)
  {
  }

  /** Before parsing, whitespace is dropped and all else is kept in order. */
  lemma {:induction false} StripMeaning(s: string, c: char)
    ensures Strip(s + [c]) == Strip(s) + if Whitespace(c) then "" else [c]
    ensures Strip("") == ""
  {
    WhitespaceIs(c);
    if s == "" {
      assert s + [c] == [c] && [c][1..] == "";
    } else {
      StripMeaning(s[1..], c);
      assert (s + [c])[1..] == s[1..] + [c];
    }
  }

  // ---- one alternative ----

  predicate Punctuates(c: char) {
    c in "!\"#$%&'()*+,-./:;<=>?@[\\]^`{|}~"
  }

  /** The first punctuation of a text. */
  predicate OperatorAt(s: string, n: int) {
    0 <= n < |s| && Punctuates(s[n]) && forall i :: 0 <= i < n ==> !Punctuates(s[i])
  }

  lemma SamePunctuation(c: char)
    ensures Punctuates(c) <==> IsPunctuation(c)
  {
  }

  lemma {:induction false} FieldStops(s: string)
    ensures var k := FieldLength(s);
      && (forall i :: 0 <= i < k ==> !Punctuates(s[i])) && (k < |s| ==> Punctuates(s[k]))
  {
    if s != "" {
      SamePunctuation(s[0]);
      if !IsPunctuation(s[0]) {
        FieldStops(s[1..]);
        assert forall i :: 0 < i < |s| ==> s[i] == s[1..][i - 1];
      }
    }
  }

  lemma FieldBefore(s: string, n: int)
    ensures OperatorAt(s, n) <==> n == FieldLength(s) && n < |s|
  {
    FieldStops(s);
  }

  /** An alternative is the text before the first punctuation, that punctuation,
      which must be a condition, and the value behind it; both errors. */
  lemma AlternativeMeaning(s: string)
    ensures ParseAlternative(s) == Err(NoOperator) <==> forall i :: 0 <= i < |s| ==> !Punctuates(s[i])
    ensures ParseAlternative(s) == Err(InvalidCondition) <==> exists n :: OperatorAt(s, n) && s[n] !in "!=/^$~<>}{#"
    ensures forall n :: OperatorAt(s, n) && s[n] in "!=/^$~<>}{#" ==>
              ParseAlternative(s)
              == Ok((Alternative(s[..n], s[n], ReadValue(s[n + 1..]).0), ReadValue(s[n + 1..]).1))
  {
    var k := FieldLength(s);
    forall n ensures OperatorAt(s, n) <==> n == k && n < |s| { FieldBefore(s, n); }
    FieldStops(s);
    if k < |s| { assert OperatorAt(s, k); }
  }

  /** A restriction is empty, which is an error, exactly when its text is, or
      begins with an ampersand. */
  lemma NoAlternativesExactly(s: string)
    ensures ParseRestriction(s) == Err(NoAlternatives) <==> s == "" || s[0] == '&'
  {
    if s != "" && s[0] != '&' {
      NeverNoAlternatives(s);
      if ParseAlternative(s).Ok? { NeverNoAlternatives(ParseAlternative(s).value.1); }
    }
  }

  lemma {:induction false} NeverNoAlternatives(s: string)
    ensures ParseAlternatives(s) != Err(NoAlternatives)
    decreases |s|
  {
    if s != "" && s[0] != '&' && ParseAlternative(s).Ok? {
      NeverNoAlternatives(ParseAlternative(s).value.1);
    }
  }

  // ---- strings and integers ----

  /** The first place where two strings differ decides; a string comes before
      its continuations. */
  ghost predicate Precedes(a: string, b: string) {
    exists k :: 0 <= k <= |a| && k < |b| && a[..k] == b[..k] && (k == |a| || a[k] < b[k])
  }

  lemma {:induction false} BeforeMeaning(a: string, b: string)
    ensures Before(a, b) <==> Precedes(a, b)
  {
    if b == "" {
    } else if a == "" {
      assert a[..0] == b[..0];
    } else {
      BeforeMeaning(a[1..], b[1..]);
      if a[0] < b[0] { assert a[..0] == b[..0]; }
      if a[0] == b[0] && Precedes(a[1..], b[1..]) {
        var k :| 0 <= k <= |a[1..]| && k < |b[1..]| && a[1..][..k] == b[1..][..k]
          && (k == |a[1..]| || a[1..][k] < b[1..][k]);
        assert a[..k + 1] == [a[0]] + a[1..][..k] && b[..k + 1] == [b[0]] + b[1..][..k];
      }
      if Precedes(a, b) {
        var k :| 0 <= k <= |a| && k < |b| && a[..k] == b[..k] && (k == |a| || a[k] < b[k]);
        if k > 0 {
          assert a[0] == a[..k][0] == b[..k][0] == b[0];
          assert a[1..][..k - 1] == a[..k][1..] && b[1..][..k - 1] == b[..k][1..];
        }
      }
    }
  }

  ghost predicate EndsIn(s: string, end: string) {
    exists start :: s == start + end
  }

  ghost predicate Holds(s: string, part: string) {
    exists start, end :: s == start + part + end
  }

  lemma EndMeaning(s: string, end: string)
    ensures EndsWith(s, end) <==> EndsIn(s, end)
  {
    if EndsWith(s, end) { assert s == s[..|s| - |end|] + end; }
  }

  lemma PartMeaning(s: string, part: string)
    ensures Contains(s, part) <==> Holds(s, part)
  {
    if Contains(s, part) {
      var i :| 0 <= i <= |s| && part <= s[i..];
      assert s == s[..i] + part + s[i + |part|..];
    }
    if Holds(s, part) {
      var start, end :| s == start + part + end;
      assert s[|start|..] == part + end;
    }
  }

  /** What follows a number does not go on with a letter or digit. */
  predicate Stops(rest: string) {
    rest == "" || !('0' <= rest[0] <= '9' || 'a' <= rest[0] <= 'z' || 'A' <= rest[0] <= 'Z')
  }

  lemma {:induction false} LeadingDigits(digits: string, tail: string)
    requires forall i :: 0 <= i < |digits| ==> '0' <= digits[i] <= '9'
    ensures LeadingNumber(digits + tail, 10, 0) == LeadingNumber(tail, 10, DecimalValue(digits))
  {
    if digits == "" {
      assert digits + tail == tail;
    } else {
      var init, last := digits[..|digits| - 1], digits[|digits| - 1];
      LeadingDigits(init, [last] + tail);
      assert digits + tail == init + ([last] + tail) && ([last] + tail)[1..] == tail;
    }
  }

  lemma MagnitudeOf(n: nat, rest: string)
    requires Stops(rest)
    ensures Magnitude(Decimal(n) + rest) == Some(n)
  {
    DecimalRoundTrip(n);
    NoMark(Decimal(n), rest);
    LeadingDigits(Decimal(n), rest);
    NumberEnds(rest, n);
  }

  /** Digits are no hexadecimal mark. */
  lemma NoMark(digits: string, rest: string)
    requires IsDecimal(digits) && Stops(rest)
    ensures var text := digits + rest;
      text != "" && DigitValue(text[0]) < 10 && !(|text| >= 2 && (text[1] == 'x' || text[1] == 'X'))
  {
    var text := digits + rest;
    assert text[0] == digits[0];
    if |digits| >= 2 { assert text[1] == digits[1]; } else if rest != "" { assert text[1] == rest[0]; }
  }

  lemma NumberEnds(rest: string, read: int)
    requires Stops(rest)
    ensures LeadingNumber(rest, 10, read) == read
  {
  }

  lemma {:induction false} SpaceSkipped(space: string, text: string)
    requires (forall i :: 0 <= i < |space| ==> IsSpace(space[i])) && (text == "" || !IsSpace(text[0]))
    ensures AfterSpace(space + text) == text
  {
    if space == "" {
      assert space + text == text;
    } else {
      SpaceSkipped(space[1..], text);
      assert (space + text)[1..] == space[1..] + text;
    }
  }

  lemma Headed(n: nat, rest: string)
    ensures var text := Decimal(n) + rest; text != "" && '0' <= text[0] <= '9' && !IsSpace(text[0])
  {
    DecimalRoundTrip(n);
    assert (Decimal(n) + rest)[0] == Decimal(n)[0];
  }

  /** A number in decimal digits, behind spaces, is read as itself, whatever
      follows it. */
  lemma ParseDecimal(space: string, n: nat, rest: string)
    requires (forall i :: 0 <= i < |space| ==> IsSpace(space[i])) && Stops(rest)
    ensures ParseInt(space + (Decimal(n) + rest)) == Some(n)
  {
    Headed(n, rest);
    MagnitudeOf(n, rest);
    SpaceSkipped(space, Decimal(n) + rest);
  }

  /** And behind a sign with that sign. */
  lemma ParseSigned(space: string, sign: char, n: nat, rest: string)
    requires (forall i :: 0 <= i < |space| ==> IsSpace(space[i])) && Stops(rest) && (sign == '-' || sign == '+')
    ensures ParseInt(space + ([sign] + (Decimal(n) + rest))) == Some(if sign == '-' then 0 - n else n)
  {
    var text := Decimal(n) + rest;
    MagnitudeOf(n, rest);
    SpaceSkipped(space, [sign] + text);
    assert ([sign] + text)[1..] == text;
  }

  /** A text that does not go on with a digit, behind spaces and a sign, is no
      integer. */
  lemma ParseNothing(space: string, text: string)
    requires (forall i :: 0 <= i < |space| ==> IsSpace(space[i]))
    requires text == "" || (!IsSpace(text[0]) && text[0] != '-' && text[0] != '+' && !('0' <= text[0] <= '9'))
    ensures ParseInt(space + text) == None && ParseInt(space + ("-" + text)) == None
  {
    SpaceSkipped(space, text);
    SpaceSkipped(space, "-" + text);
    assert ("-" + text)[1..] == text;
  }

  // ---- conditions ----

  /** Does the value of the field meet the condition? */
  ghost predicate Meets(cond: char, val: string, value: string) {
    || (cond == '#')
    || (cond == '=' && val == value)
    || (cond == '/' && val != value)
    || (cond == '^' && exists end :: val == value + end)
    || (cond == '$' && EndsIn(val, value))
    || (cond == '~' && Holds(val, value))
    || (cond == '{' && Precedes(val, value))
    || (cond == '}' && Precedes(value, val))
    || (cond == '<' && ParseInt(val).Some? && ParseInt(value).Some? && ParseInt(val).value < ParseInt(value).value)
    || (cond == '>' && ParseInt(val).Some? && ParseInt(value).Some? && ParseInt(val).value > ParseInt(value).value)
  }

  lemma ComparesStrings(cond: char, val: string, value: string)
    requires cond == '=' || cond == '/' || cond == '^' || cond == '$' || cond == '~' || cond == '{' || cond == '}'
    ensures Compare(cond, val, value).None? <==> Meets(cond, val, value)
  {
    if cond == '^' && value <= val {
      assert val == value + val[|value|..];
    } else if cond == '$' {
      EndMeaning(val, value);
    } else if cond == '~' {
      PartMeaning(val, value);
    } else if cond == '{' {
      BeforeMeaning(val, value);
    } else if cond == '}' {
      BeforeMeaning(value, val);
    }
  }

  lemma ComparesIntegers(cond: char, val: string, value: string)
    requires cond == '<' || cond == '>'
    ensures Compare(cond, val, value).None? <==> Meets(cond, val, value)
  {
  }

  predicate Condition(c: char) {
    || c == '!' || c == '=' || c == '/' || c == '^' || c == '$' || c == '~' || c == '<' || c == '>' || c == '}' || c == '{'
    || c == '#'
  }

  /** These are the characters that the constructor accepts. */
  lemma ConditionsAre(c: char)
    ensures Condition(c) <==> c in CONDITIONS
  {
  }

  /** An alternative passes exactly when it is a comment, its field is missing
      and should be, or its field is there and meets the condition. */
  lemma PassesMeaning(a: Alternative, values: Values)
    requires Condition(a.cond)
    ensures Passes(a, values) <==>
            a.cond == '#' || if a.field in values then Meets(a.cond, values[a.field], a.value) else a.cond == '!'
  {
    if a.field in values && a.cond != '#' && a.cond != '!' {
      if a.cond == '<' || a.cond == '>' {
        ComparesIntegers(a.cond, values[a.field], a.value);
      } else {
        ComparesStrings(a.cond, values[a.field], a.value);
      }
    }
  }

  /** The reason names the field, and says which comparison failed against
      what. */
  predicate Explains(why: Why, cond: char, val: string, value: string) {
    match why
    case IsMissing => false
    case IsPresent => cond == '!'
    case Differs(expected) => cond == '=' && expected == value
    case Equals(excluded) => cond == '/' && excluded == value
    case DoesNotStartWith(start) => cond == '^' && start == value
    case DoesNotEndWith(end) => cond == '$' && end == value
    case DoesNotContain(part) => cond == '~' && part == value
    case NotAnInteger => (cond == '<' || cond == '>') && ParseInt(val).None?
    case NotAValidInteger => (cond == '<' || cond == '>') && ParseInt(val).Some? && ParseInt(value).None?
    case AtLeast(least) => cond == '<' && ParseInt(value) == Some(least)
    case AtMost(most) => cond == '>' && ParseInt(value) == Some(most)
    case SameOrAfter(upper) => cond == '{' && upper == value
    case SameOrBefore(lower) => cond == '}' && lower == value
  }

  lemma ReasonMeaning(a: Alternative, values: Values)
    requires Condition(a.cond) && !Passes(a, values)
    ensures var reason := TestAlternative(a, values).value;
      reason.field == a.field
      && if a.field in values then Explains(reason.why, a.cond, values[a.field], a.value) else reason.why == IsMissing
  {
  }

  /** A hexadecimal mark in either case makes the digits hexadecimal. */
  lemma ParseHexadecimal()
    ensures ParseInt("0x1f") == Some(31) && ParseInt("-0XAz") == Some(-10) && ParseInt("0x") == None
  {
    assert "0x1f"[2..] == "1f" && "1f"[1..] == "f" && "f"[1..] == "";
    assert "-0XAz"[1..] == "0XAz" && "0XAz"[2..] == "Az" && "Az"[1..] == "z";
    assert "0x"[2..] == "";
    assert LeadingNumber("", 16, 31) == 31 && LeadingNumber("f", 16, 1) == 31 && LeadingNumber("1f", 16, 0) == 31;
    assert LeadingNumber("z", 16, 10) == 10 && LeadingNumber("Az", 16, 0) == 10;
  }

  lemma ParseAlone(n: nat)
    ensures ParseInt(Decimal(n)) == Some(n)
  {
    ParseDecimal("", n, "");
    assert "" + (Decimal(n) + "") == Decimal(n);
  }

  /** On numbers written in digits the comparisons are those of the numbers. */
  lemma ComparesNumbers(field: string, m: nat, n: nat)
    ensures Passes(Alternative(field, '<', Decimal(n)), map[field := Decimal(m)]) <==> m < n
    ensures Passes(Alternative(field, '>', Decimal(n)), map[field := Decimal(m)]) <==> m > n
  {
    ParseAlone(m);
    ParseAlone(n);
  }
}
