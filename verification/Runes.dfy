/** Runes: restrictions joined by `&`, each of them alternatives joined by `|`,
    with `\` before any of the three inside a value
    (nostream-share/src/utils/runes). */
module Runes {
  import opened Wrappers

  datatype Alternative = Alternative(field: string, cond: char, value: string)

  type Restriction = seq<Alternative>

  type Rune = seq<Restriction>

  datatype RuneError = NoOperator | InvalidCondition | NoAlternatives

  // ---- characters ----

  const PUNCTUATION := "!\"#$%&'()*+,-./:;<=>?@[\\]^`{|}~"
  const CONDITIONS := "!=/^$~<>}{#"
  const UNDEFINED := "undefined"

  predicate IsPunctuation(c: char) {
    c in PUNCTUATION
  }

  /** The characters that `\s` stands for. */
  predicate IsSpace(c: char) {
    || c == ' ' || 9 as char <= c <= 13 as char || c == '\U{00A0}' || c == '\U{1680}'
    || '\U{2000}' <= c <= '\U{200A}' || c == '\U{2028}' || c == '\U{2029}' || c == '\U{202F}'
    || c == '\U{205F}' || c == '\U{3000}' || c == '\U{FEFF}'
  }

  predicate HasSpace(s: string) {
    exists i :: 0 <= i < |s| && IsSpace(s[i])
  }

  predicate HasPunctuation(s: string) {
    exists i :: 0 <= i < |s| && IsPunctuation(s[i])
  }

  function Strip(s: string): (t: string)
    ensures !HasSpace(t) && |t| <= |s|
  {
    if s == "" then "" else if IsSpace(s[0]) then Strip(s[1..]) else [s[0]] + Strip(s[1..])
  }

  lemma {:induction false} StripNothing(s: string)
    ensures Strip(s) == s <==> !HasSpace(s)
  {
    if s != "" && !HasSpace(s) {
      assert !IsSpace(s[0]);
      forall i | 0 <= i < |s[1..]| ensures !IsSpace(s[1..][i]) { assert s[1..][i] == s[i + 1]; }
      StripNothing(s[1..]);
      assert s == [s[0]] + s[1..];
    }
  }

  // ---- legal runes ----

  /** What the constructors accept. */
  predicate LegalAlternative(a: Alternative) {
    !HasPunctuation(a.field) && a.cond in CONDITIONS
  }

  predicate LegalRestriction(r: Restriction) {
    r != [] && forall i :: 0 <= i < |r| ==> LegalAlternative(r[i])
  }

  predicate LegalRune(r: Rune) {
    forall i :: 0 <= i < |r| ==> LegalRestriction(r[i])
  }

  predicate SpacelessAlternative(a: Alternative) {
    !HasSpace(a.field) && !HasSpace(a.value)
  }

  predicate SpacelessRestriction(r: Restriction) {
    forall i :: 0 <= i < |r| ==> SpacelessAlternative(r[i])
  }

  predicate SpacelessRune(r: Rune) {
    forall i :: 0 <= i < |r| ==> SpacelessRestriction(r[i])
  }

  // ---- printing ----

  predicate IsSpecial(c: char) {
    c == '\\' || c == '|' || c == '&'
  }

  function EscapeOne(c: char): string {
    if IsSpecial(c) then ['\\', c] else [c]
  }

  function Escape(value: string): string {
    if value == "" then "" else EscapeOne(value[0]) + Escape(value[1..])
  }

  function EncodeAlternative(a: Alternative): string {
    a.field + [a.cond] + Escape(a.value)
  }

  function EncodeRestriction(r: Restriction): string {
    if r == [] then ""
    else if |r| == 1 then EncodeAlternative(r[0])
    else EncodeAlternative(r[0]) + "|" + EncodeRestriction(r[1..])
  }

  function Encode(r: Rune): string {
    if r == [] then ""
    else if |r| == 1 then EncodeRestriction(r[0])
    else EncodeRestriction(r[0]) + "&" + Encode(r[1..])
  }

  // ---- parsing ----

  function FieldLength(s: string): (n: nat)
    ensures n <= |s| && !HasPunctuation(s[..n])
    ensures n < |s| ==> IsPunctuation(s[n])
  {
    if s == "" || IsPunctuation(s[0]) then 0
    else
      var n := FieldLength(s[1..]) + 1;
      assert forall i :: 0 < i < n ==> s[..n][i] == s[1..][..n - 1][i - 1];
      n
  }

  /** A value ends behind `|`, before `&`, or at the end; a backslash takes the
      next character as it is, and the text "undefined" when there is none. */
  function ReadValue(s: string): (r: (string, string))
    ensures |r.1| <= |s|
  {
    if s == "" then ("", "")
    else if s[0] == '|' then ("", s[1..])
    else if s[0] == '&' then ("", s)
    else if s[0] == '\\' then
      if |s| == 1 then (UNDEFINED, "")
      else var (value, rest) := ReadValue(s[2..]); ([s[1]] + value, rest)
    else var (value, rest) := ReadValue(s[1..]); ([s[0]] + value, rest)
  }

  function ParseAlternative(s: string): (r: Result<(Alternative, string), RuneError>)
    ensures r.Ok? ==> |r.value.1| < |s|
  {
    var n := FieldLength(s);
    if n == |s| then Err(NoOperator)
    else
      var (value, rest) := ReadValue(s[n + 1..]);
      if s[n] in CONDITIONS then Ok((Alternative(s[..n], s[n], value), rest)) else Err(InvalidCondition)
  }

  function ParseAlternatives(s: string): (r: Result<(Restriction, string), RuneError>)
    ensures r.Ok? ==> |r.value.1| <= |s| && (r.value.0 != [] ==> |r.value.1| < |s|)
    decreases |s|
  {
    if s == "" then Ok(([], ""))
    else if s[0] == '&' then Ok(([], s[1..]))
    else
      match ParseAlternative(s)
      case Err(e) => Err(e)
      case Ok((a, rest)) =>
        match ParseAlternatives(rest)
        case Err(e) => Err(e)
        case Ok((others, tail)) => Ok(([a] + others, tail))
  }

  function ParseRestriction(s: string): (r: Result<(Restriction, string), RuneError>)
    ensures r.Ok? ==> |r.value.1| < |s|
  {
    match ParseAlternatives(s)
    case Err(e) => Err(e)
    case Ok((alternatives, rest)) => if alternatives == [] then Err(NoAlternatives) else Ok((alternatives, rest))
  }

  function ParseRune(s: string): Result<Rune, RuneError>
    decreases |s|
  {
    if s == "" then Ok([])
    else
      match ParseRestriction(s)
      case Err(e) => Err(e)
      case Ok((r, rest)) =>
        match ParseRune(rest)
        case Err(e) => Err(e)
        case Ok(others) => Ok([r] + others)
  }

  function FromText(s: string): Result<Rune, RuneError> {
    ParseRune(Strip(s))
  }

  // ---- the decoders ----

  lemma ReadAt(s: string, i: nat, value: string)
    requires i < |s|
    ensures s[i] == '|' ==> ReadValue(s[i..]) == ("", s[i + 1..])
    ensures s[i] == '&' ==> ReadValue(s[i..]) == ("", s[i..])
    ensures s[i] == '\\' && i + 1 == |s| ==> ReadValue(s[i..]) == (UNDEFINED, s[|s|..])
    ensures s[i] == '\\' && i + 1 < |s| ==>
              ReadValue(s[i..]).1 == ReadValue(s[i + 2..]).1
              && value + ReadValue(s[i..]).0 == (value + [s[i + 1]]) + ReadValue(s[i + 2..]).0
    ensures !IsSpecial(s[i]) ==>
              ReadValue(s[i..]).1 == ReadValue(s[i + 1..]).1
              && value + ReadValue(s[i..]).0 == (value + [s[i]]) + ReadValue(s[i + 1..]).0
  {
    var here := s[i..];
    assert here[0] == s[i] && here[1..] == s[i + 1..];
    if i + 1 < |s| {
      assert here[1] == s[i + 1] && here[2..] == s[i + 2..];
    }
  }

  /** The first loop: up to the first punctuation. */
  method DecodeField(s: string) returns (endOff: nat)
    ensures endOff == FieldLength(s)
  {
    endOff := 0;
    while endOff < |s| && !IsPunctuation(s[endOff])
      invariant 0 <= endOff <= |s| && FieldLength(s) == endOff + FieldLength(s[endOff..])
    {
      assert s[endOff..][1..] == s[endOff + 1..];
      endOff := endOff + 1;
    }
  }

  /** The second loop: the value, from behind the condition. */
  method DecodeValue(s: string, start: nat) returns (value: string, endOff: nat)
    requires start <= |s|
    ensures endOff <= |s| && (value, s[endOff..]) == ReadValue(s[start..])
  {
    value, endOff := "", start;
    ghost var whole := ReadValue(s[start..]);
    var stopped := false;
    assert whole.0 == "" + whole.0;
    while endOff < |s| && !stopped
      invariant 0 <= endOff <= |s|
      invariant stopped ==> whole == (value, s[endOff..])
      invariant !stopped ==> whole == (value + ReadValue(s[endOff..]).0, ReadValue(s[endOff..]).1)
      decreases |s| - endOff, !stopped
    {
      ReadAt(s, endOff, value);
      assert value + "" == value;
      if s[endOff] == '|' {
        endOff := endOff + 1;
        stopped := true;
      } else if s[endOff] == '&' {
        stopped := true;
      } else if s[endOff] == '\\' {
        if endOff + 1 == |s| {
          value := value + UNDEFINED;
          endOff := |s|;
          stopped := true;
        } else {
          value := value + [s[endOff + 1]];
          endOff := endOff + 2;
        }
      } else {
        value := value + [s[endOff]];
        endOff := endOff + 1;
      }
    }
    assert value + "" == value;
  }

  method DecodeAlternative(s: string) returns (r: Result<(Alternative, string), RuneError>)
    ensures r == ParseAlternative(s)
  {
    var endOff := DecodeField(s);
    if endOff == |s| {
      return Err(NoOperator);
    }
    var field, cond := s[..endOff], s[endOff];
    endOff := endOff + 1;
    var value: string;
    value, endOff := DecodeValue(s, endOff);
    if cond !in CONDITIONS {
      return Err(InvalidCondition);
    }
    r := Ok((Alternative(field, cond, value), s[endOff..]));
  }

  /** The rest of a list, behind what has been read of it. */
  function Behind<T>(read: seq<T>, rest: Result<(seq<T>, string), RuneError>): Result<(seq<T>, string), RuneError> {
    match rest
    case Err(e) => Err(e)
    case Ok((others, tail)) => Ok((read + others, tail))
  }

  lemma BehindOneMore<T>(read: seq<T>, x: T, rest: Result<(seq<T>, string), RuneError>)
    ensures Behind(read, Behind([x], rest)) == Behind(read + [x], rest)
    ensures Behind([], rest) == rest
  {
    if rest.Ok? {
      assert read + ([x] + rest.value.0) == read + [x] + rest.value.0;
      assert [] + rest.value.0 == rest.value.0;
    }
  }

  method DecodeRestriction(s: string) returns (r: Result<(Restriction, string), RuneError>)
    ensures r == ParseRestriction(s)
  {
    var encStr := s;
    var alternatives: seq<Alternative> := [];
    var stopped := false;
    assert Behind([], ParseAlternatives(s)) == ParseAlternatives(s) by {
      if ParseAlternatives(s).Ok? { assert [] + ParseAlternatives(s).value.0 == ParseAlternatives(s).value.0; }
    }
    while encStr != "" && !stopped
      invariant !stopped ==> ParseAlternatives(s) == Behind(alternatives, ParseAlternatives(encStr))
      invariant stopped ==> ParseAlternatives(s) == Ok((alternatives, encStr))
      decreases |encStr|, !stopped
    {
      if encStr[0] == '&' {
        assert alternatives + [] == alternatives;
        encStr := encStr[1..];
        stopped := true;
      } else {
        var decoded := DecodeAlternative(encStr);
        if decoded.Err? {
          return Err(decoded.error);
        }
        var (alternative, rest) := decoded.value;
        BehindOneMore(alternatives, alternative, ParseAlternatives(rest));
        alternatives := alternatives + [alternative];
        encStr := rest;
      }
    }
    assert alternatives + [] == alternatives;
    if alternatives == [] {
      return Err(NoAlternatives);
    }
    r := Ok((alternatives, encStr));
  }

  function AllBehind(read: Rune, rest: Result<Rune, RuneError>): Result<Rune, RuneError> {
    match rest
    case Err(e) => Err(e)
    case Ok(others) => Ok(read + others)
  }

  lemma AllBehindOneMore(read: Rune, x: Restriction, rest: Result<Rune, RuneError>)
    ensures AllBehind(read, AllBehind([x], rest)) == AllBehind(read + [x], rest)
    ensures AllBehind([], rest) == rest
  {
    if rest.Ok? {
      assert read + ([x] + rest.value) == read + [x] + rest.value;
      assert [] + rest.value == rest.value;
    }
  }

  method From(encodedStr: string) returns (r: Result<Rune, RuneError>)
    ensures r == FromText(encodedStr)
  {
    var restrictions: seq<Restriction> := [];
    var encStr := Strip(encodedStr);
    AllBehindOneMore([], [], ParseRune(encStr));
    while encStr != ""
      invariant FromText(encodedStr) == AllBehind(restrictions, ParseRune(encStr))
      decreases |encStr|
    {
      var decoded := DecodeRestriction(encStr);
      if decoded.Err? {
        return Err(decoded.error);
      }
      var (restriction, rest) := decoded.value;
      AllBehindOneMore(restrictions, restriction, ParseRune(rest));
      restrictions := restrictions + [restriction];
      encStr := rest;
    }
    assert restrictions + [] == restrictions;
    r := Ok(restrictions);
  }

  // ---- printing, then parsing ----

  predicate EndsValue(tail: string) {
    tail == "" || tail[0] == '|' || tail[0] == '&'
  }

  lemma ReadOne(c: char, text: string)
    ensures ReadValue(EscapeOne(c) + text) == ([c] + ReadValue(text).0, ReadValue(text).1)
  {
    assert (['\\', c] + text)[2..] == text;
    assert ([c] + text)[1..] == text;
  }

  lemma EscapeTail(value: string, tail: string)
    requires value != ""
    ensures Escape(value) + tail == EscapeOne(value[0]) + (Escape(value[1..]) + tail)
  {
  }

  lemma {:induction false} ReadEscaped(value: string, tail: string)
    requires EndsValue(tail)
    ensures ReadValue(Escape(value) + tail)
            == (value, if tail != "" && tail[0] == '|' then tail[1..] else tail)
  {
    if value == "" {
      assert Escape(value) + tail == tail;
    } else {
      ReadEscaped(value[1..], tail);
      ReadOne(value[0], Escape(value[1..]) + tail);
      EscapeTail(value, tail);
      assert value == [value[0]] + value[1..];
    }
  }

  lemma {:induction false} FieldEnds(field: string, rest: string)
    requires !HasPunctuation(field) && rest != "" && IsPunctuation(rest[0])
    ensures FieldLength(field + rest) == |field|
  {
    if field == "" {
      assert field + rest == rest;
    } else {
      assert !IsPunctuation(field[0]);
      forall i | 0 <= i < |field[1..]| ensures !IsPunctuation(field[1..][i]) { assert field[1..][i] == field[i + 1]; }
      FieldEnds(field[1..], rest);
      assert (field + rest)[1..] == field[1..] + rest;
    }
  }

  lemma ConditionsArePunctuation(c: char)
    requires c in CONDITIONS
    ensures IsPunctuation(c) && !IsSpecial(c)
  {
  }

  lemma ParseParts(field: string, cond: char, rest: string)
    requires !HasPunctuation(field) && cond in CONDITIONS
    ensures ParseAlternative(field + [cond] + rest)
      == Ok((Alternative(field, cond, ReadValue(rest).0), ReadValue(rest).1))
    ensures (field + [cond] + rest)[0] != '&'
  {
    ConditionsArePunctuation(cond);
    var text := field + [cond] + rest;
    assert text == field + ([cond] + rest);
    FieldEnds(field, [cond] + rest);
    assert text[..|field|] == field && text[|field| + 1..] == rest;
    if field != "" {
      assert !IsPunctuation(field[0]);
    }
  }

  lemma Regroup(a: string, b: string, c: string, d: string)
    ensures a + b + c + d == a + b + (c + d)
    ensures a + b + c + d == a + (b + (c + d))
  {
    assert a + b + (c + d) == a + (b + (c + d));
  }

  lemma ParseEncodedAlternative(a: Alternative, tail: string)
    requires LegalAlternative(a) && EndsValue(tail)
    ensures var text := EncodeAlternative(a) + tail;
      text != "" && text[0] != '&'
      && ParseAlternative(text) == Ok((a, if tail != "" && tail[0] == '|' then tail[1..] else tail))
  {
    ParseParts(a.field, a.cond, Escape(a.value) + tail);
    ReadEscaped(a.value, tail);
    Regroup(a.field, [a.cond], Escape(a.value), tail);
  }

  lemma ParseAlternativesCons(s: string, a: Alternative, rest: string, r: Restriction, tail: string)
    requires s != "" && s[0] != '&' && ParseAlternative(s) == Ok((a, rest))
    requires ParseAlternatives(rest) == Ok((r, tail))
    ensures ParseAlternatives(s) == Ok(([a] + r, tail))
  {
  }

  lemma ParseLast(s: string, a: Alternative, tail: string)
    requires LegalAlternative(a) && (tail == "" || tail[0] == '&') && s == EncodeAlternative(a) + tail
    ensures ParseAlternatives(s) == Ok(([a], if tail == "" then "" else tail[1..]))
  {
    ParseEncodedAlternative(a, tail);
    ParseAlternativesCons(s, a, tail, [], if tail == "" then "" else tail[1..]);
    assert [a] + [] == [a];
  }

  lemma ParseMore(s: string, a: Alternative, text: string, r: Restriction, tail: string)
    requires LegalAlternative(a) && ParseAlternatives(text) == Ok((r, tail))
    requires s == EncodeAlternative(a) + ("|" + text)
    ensures ParseAlternatives(s) == Ok(([a] + r, tail))
  {
    ParseEncodedAlternative(a, "|" + text);
    assert ("|" + text)[1..] == text;
    ParseAlternativesCons(s, a, text, r, tail);
  }

  lemma EncodeCons(r: Restriction, tail: string)
    requires |r| > 1
    ensures EncodeRestriction(r) + tail == EncodeAlternative(r[0]) + ("|" + (EncodeRestriction(r[1..]) + tail))
  {
    Regroup(EncodeAlternative(r[0]), "|", EncodeRestriction(r[1..]), tail);
  }

  lemma {:induction false} ParseEncodedAlternatives(r: Restriction, tail: string)
    requires LegalRestriction(r) && (tail == "" || tail[0] == '&')
    ensures ParseAlternatives(EncodeRestriction(r) + tail) == Ok((r, if tail == "" then "" else tail[1..]))
  {
    if |r| == 1 {
      ParseLast(EncodeRestriction(r) + tail, r[0], tail);
      assert [r[0]] == r;
    } else {
      ParseEncodedAlternatives(r[1..], tail);
      EncodeCons(r, tail);
      ParseMore(EncodeRestriction(r) + tail, r[0], EncodeRestriction(r[1..]) + tail,
                r[1..], if tail == "" then "" else tail[1..]);
      assert [r[0]] + r[1..] == r;
    }
  }

  lemma {:induction false} EncodedStart(r: Restriction, tail: string)
    requires LegalRestriction(r)
    ensures EncodeRestriction(r) + tail != ""
  {
  }

  lemma {:induction false} ParseEncoded(r: Rune)
    requires LegalRune(r)
    ensures ParseRune(Encode(r)) == Ok(r)
  {
    if |r| == 1 {
      ParseFirst(Encode(r), r[0], "", []);
      assert [r[0]] + [] == r;
    } else if |r| > 1 {
      ParseEncoded(r[1..]);
      EncodeHead(r);
      ParseFirst(Encode(r), r[0], "&" + Encode(r[1..]), r[1..]);
      assert [r[0]] + r[1..] == r;
    }
  }

  lemma EncodeHead(r: Rune)
    requires |r| > 1
    ensures Encode(r) == EncodeRestriction(r[0]) + ("&" + Encode(r[1..])) && ("&" + Encode(r[1..]))[1..] == Encode(r[1..])
  {
  }

  lemma ParseFirst(s: string, r: Restriction, tail: string, others: Rune)
    requires LegalRestriction(r) && s == EncodeRestriction(r) + tail && (tail == "" || tail[0] == '&')
    requires ParseRune(if tail == "" then "" else tail[1..]) == Ok(others)
    ensures ParseRune(s) == Ok([r] + others)
  {
    ParseEncodedAlternatives(r, tail);
    EncodedStart(r, tail);
    assert ParseRestriction(s) == Ok((r, if tail == "" then "" else tail[1..]));
  }

  // ---- whitespace ----

  lemma SpaceAppend(s: string, t: string)
    ensures HasSpace(s + t) <==> HasSpace(s) || HasSpace(t)
  {
    if HasSpace(s) {
      var i :| 0 <= i < |s| && IsSpace(s[i]);
      assert (s + t)[i] == s[i];
    }
    if HasSpace(t) {
      var i :| 0 <= i < |t| && IsSpace(t[i]);
      assert (s + t)[|s| + i] == t[i];
    }
  }

  lemma {:induction false} EscapeSpaceless(value: string)
    requires !HasSpace(value)
    ensures !HasSpace(Escape(value))
  {
    if value != "" {
      forall i | 0 <= i < |value[1..]| ensures !IsSpace(value[1..][i]) { assert value[1..][i] == value[i + 1]; }
      EscapeSpaceless(value[1..]);
      var head := EscapeOne(value[0]);
      assert !IsSpace(value[0]) && !HasSpace(head);
      SpaceAppend(head, Escape(value[1..]));
    }
  }

  lemma AlternativeSpaceless(a: Alternative)
    requires LegalAlternative(a) && SpacelessAlternative(a)
    ensures !HasSpace(EncodeAlternative(a))
  {
    EscapeSpaceless(a.value);
    assert !IsSpace(a.cond);
    SpaceAppend(a.field, [a.cond]);
    SpaceAppend(a.field + [a.cond], Escape(a.value));
  }

  lemma {:induction false} RestrictionSpaceless(r: Restriction)
    requires LegalRestriction(r) && SpacelessRestriction(r)
    ensures !HasSpace(EncodeRestriction(r))
  {
    AlternativeSpaceless(r[0]);
    if |r| > 1 {
      RestrictionSpaceless(r[1..]);
      SpaceAppend(EncodeAlternative(r[0]), "|");
      SpaceAppend(EncodeAlternative(r[0]) + "|", EncodeRestriction(r[1..]));
    }
  }

  lemma {:induction false} RuneSpaceless(r: Rune)
    requires LegalRune(r) && SpacelessRune(r)
    ensures !HasSpace(Encode(r))
  {
    if r != [] {
      RestrictionSpaceless(r[0]);
      if |r| > 1 {
        RuneSpaceless(r[1..]);
        SpaceAppend(EncodeRestriction(r[0]), "&");
        SpaceAppend(EncodeRestriction(r[0]) + "&", Encode(r[1..]));
      }
    }
  }

  lemma SliceSpaceless(s: string, i: nat, j: nat)
    requires !HasSpace(s) && i <= j <= |s|
    ensures !HasSpace(s[i..j])
  {
    assert forall k :: 0 <= k < j - i ==> s[i..j][k] == s[i + k];
  }

  lemma {:induction false} ReadSpaceless(s: string)
    requires !HasSpace(s)
    ensures !HasSpace(ReadValue(s).0) && !HasSpace(ReadValue(s).1)
  {
    if s != "" && s[0] != '|' && s[0] != '&' {
      if s[0] == '\\' {
        if |s| > 1 {
          SliceSpaceless(s, 2, |s|);
          ReadSpaceless(s[2..]);
          SpaceAppend([s[1]], ReadValue(s[2..]).0);
        }
      } else {
        SliceSpaceless(s, 1, |s|);
        ReadSpaceless(s[1..]);
        SpaceAppend([s[0]], ReadValue(s[1..]).0);
      }
    } else if s != "" {
      SliceSpaceless(s, 1, |s|);
    }
  }

  lemma ParsedAlternative(s: string)
    requires !HasSpace(s) && ParseAlternative(s).Ok?
    ensures var (a, rest) := ParseAlternative(s).value;
      LegalAlternative(a) && SpacelessAlternative(a) && !HasSpace(rest)
  {
    var n := FieldLength(s);
    SliceSpaceless(s, 0, n);
    SliceSpaceless(s, n + 1, |s|);
    ReadSpaceless(s[n + 1..]);
  }

  lemma LegalCons(a: Alternative, r: Restriction)
    requires LegalAlternative(a) && SpacelessAlternative(a)
    requires (r != [] ==> LegalRestriction(r)) && SpacelessRestriction(r)
    ensures LegalRestriction([a] + r) && SpacelessRestriction([a] + r)
  {
  }

  lemma LegalRuneCons(r: Restriction, others: Rune)
    requires LegalRestriction(r) && SpacelessRestriction(r) && LegalRune(others) && SpacelessRune(others)
    ensures LegalRune([r] + others) && SpacelessRune([r] + others)
  {
  }

  lemma {:induction false} ParsedAlternatives(s: string)
    requires !HasSpace(s) && ParseAlternatives(s).Ok?
    ensures var (r, rest) := ParseAlternatives(s).value;
      (r != [] ==> LegalRestriction(r)) && SpacelessRestriction(r) && !HasSpace(rest)
    decreases |s|
  {
    if s != "" {
      if s[0] == '&' {
        SliceSpaceless(s, 1, |s|);
      } else {
        ParsedAlternative(s);
        var (a, rest) := ParseAlternative(s).value;
        ParsedAlternatives(rest);
        LegalCons(a, ParseAlternatives(rest).value.0);
      }
    }
  }

  lemma {:induction false} ParsedRune(s: string)
    requires !HasSpace(s) && ParseRune(s).Ok?
    ensures LegalRune(ParseRune(s).value) && SpacelessRune(ParseRune(s).value)
    decreases |s|
  {
    if s != "" {
      ParsedAlternatives(s);
      var (r, rest) := ParseRestriction(s).value;
      ParsedRune(rest);
      LegalRuneCons(r, ParseRune(rest).value);
    }
  }

  // ---- the laws ----

  /** Parsing a printed rune gives the rune back, whatever backslashes, bars
      and ampersands its values hold, exactly when it holds no whitespace. */
  lemma RoundTrip(r: Rune)
    requires LegalRune(r)
    ensures FromText(Encode(r)) == Ok(r) <==> SpacelessRune(r)
  {
    if SpacelessRune(r) {
      RuneSpaceless(r);
      StripNothing(Encode(r));
      ParseEncoded(r);
    }
    if FromText(Encode(r)) == Ok(r) {
      ParsedRune(Strip(Encode(r)));
    }
  }

  /** Printing what was parsed, from any text at all, parses to the same rune. */
  lemma ParseNormalises(s: string)
    requires FromText(s).Ok?
    ensures FromText(Encode(FromText(s).value)) == FromText(s)
  {
    ParsedRune(Strip(s));
    RoundTrip(FromText(s).value);
  }

  lemma {:induction false} EncodeAppend(a: Rune, b: Rune)
    requires a != [] && b != []
    ensures Encode(a + b) == Encode(a) + "&" + Encode(b)
  {
    if |a| == 1 {
      assert (a + b)[1..] == b;
    } else {
      EncodeAppend(a[1..], b);
      assert (a + b)[1..] == a[1..] + b;
    }
  }

  /** Two printed runes joined by `&` parse to the restrictions of both. */
  lemma JoinedText(a: Rune, b: Rune)
    requires LegalRune(a) && LegalRune(b) && SpacelessRune(a) && SpacelessRune(b) && a != [] && b != []
    ensures FromText(Encode(a) + "&" + Encode(b)) == Ok(a + b)
  {
    EncodeAppend(a, b);
    RoundTrip(a + b);
  }
}
