/** How the `process_event_tags` trigger reads a tag out of the JSON column
    (nostream-share/migrations/20240120_000000_partition_events_table.js). */
module TagIndex {
  import opened Wrappers
  import opened Hex
  import opened NostrEvents

  datatype TagRow = TagRow(eventId: seq<Byte>, name: string, value: string)

  // ---- JSON text of a string, and trimming its quotes ----

  predicate NeedsEscape(c: char) {
    c == '"' || c == '\\' || c < ' '
  }

  predicate Plain(s: string) {
    forall i :: 0 <= i < |s| ==> !NeedsEscape(s[i])
  }

  /** The characters after the backslash of an escape. */
  function EscapeCode(c: char): (code: string)
    requires NeedsEscape(c)
    ensures code != ""
    ensures (c == '"' ==> code == "\"") && (code[|code| - 1] == '"' ==> c == '"')
  {
    if c == '"' then "\"" else if c == '\\' then "\\"
    else if c == '\n' then "n" else if c == '\r' then "r" else if c == '\t' then "t"
    else if c == 8 as char then "b" else if c == 12 as char then "f"
    else ['u', '0', '0', Digit(c as int / 16), Digit(c as int % 16)]
  }

  function EscapeChar(c: char): (text: string)
    ensures text != "" && text[0] != '"'
    ensures |text| == 1 <==> !NeedsEscape(c)
    ensures !NeedsEscape(c) ==> text == [c]
    ensures text[|text| - 1] == '"' ==> c == '"'
    ensures c == '"' ==> text == "\\\""
  {
    if NeedsEscape(c) then "\\" + EscapeCode(c) else [c]
  }

  function Escape(s: string): string {
    if s == "" then "" else Escape(s[..|s| - 1]) + EscapeChar(s[|s| - 1])
  }

  /** `(value)::text` for a jsonb string. */
  function JsonText(s: string): string {
    "\"" + Escape(s) + "\""
  }

  function TrimStart(s: string): string {
    if s != "" && s[0] == '"' then TrimStart(s[1..]) else s
  }

  function TrimEnd(s: string): string {
    if s != "" && s[|s| - 1] == '"' then TrimEnd(s[..|s| - 1]) else s
  }

  /** `trim(text, '"')`. */
  function Trim(s: string): string {
    TrimEnd(TrimStart(s))
  }

  function Stored(s: string): string {
    Trim(JsonText(s))
  }

  lemma {:induction false} EscapeOfPlain(s: string)
    ensures |Escape(s)| >= |s|
    ensures s != "" ==> Escape(s)[0] != '"'
    ensures Plain(s) <==> |Escape(s)| == |s|
    ensures Plain(s) ==> Escape(s) == s
  {
    if s != "" {
      var init, last := s[..|s| - 1], s[|s| - 1];
      EscapeOfPlain(init);
      assert s == init + [last];
      assert Plain(s) <==> Plain(init) && !NeedsEscape(last);
    }
  }

  lemma TrimEndQuote(s: string)
    requires s == "" || s[|s| - 1] != '"'
    ensures TrimEnd(s + "\"") == s
  {
    assert (s + "\"")[..|s|] == s;
  }

  lemma TrimStartQuote(s: string)
    requires s == "" || s[0] != '"'
    ensures TrimStart("\"" + s) == s
  {
    assert ("\"" + s)[1..] == s;
  }

  /** The quotes of a JSON text that does not end in an escaped quote. */
  lemma TrimQuoted(text: string)
    requires text != "" && text[0] != '"' && text[|text| - 1] != '"'
    ensures Trim("\"" + text + "\"") == text
  {
    assert "\"" + text + "\"" == "\"" + (text + "\"");
    TrimStartQuote(text + "\"");
    TrimEndQuote(text);
  }

  /** The escaped quote at the end of a text is trimmed with the closing one. */
  lemma TrimDoublyQuoted(text: string)
    requires text != "" && text[0] != '"' && text[|text| - 1] != '"'
    ensures Trim("\"" + (text + "\"") + "\"") == text
  {
    var tail := text + "\"" + "\"";
    assert "\"" + (text + "\"") + "\"" == "\"" + tail;
    TrimStartQuote(tail);
    assert tail[..|tail| - 1] == text + "\"";
    TrimEndQuote(text);
  }

  lemma EscapeEnds(s: string)
    requires s != ""
    ensures var text := Escape(s); text != "" && text[0] != '"'
    ensures s[|s| - 1] != '"' ==> Escape(s)[|Escape(s)| - 1] != '"'
    ensures s[|s| - 1] == '"' ==> Escape(s) == Escape(s[..|s| - 1]) + "\\" + "\""
  {
    EscapeOfPlain(s);
    var e := EscapeChar(s[|s| - 1]);
    assert Escape(s)[|Escape(s)| - 1] == e[|e| - 1];
    if s[|s| - 1] == '"' {
      assert e == "\\" + "\"";
    }
  }

  lemma StoredEmpty()
    ensures Stored("") == ""
  {
    var quotes := JsonText("");
    assert quotes == ['"', '"'];
    assert quotes[1..] == ['"'] && ['"'][1..] == [];
  }

  lemma StoredText(s: string)
    ensures s == "" ==> Stored(s) == s
    ensures s != "" && s[|s| - 1] != '"' ==> Stored(s) == Escape(s)
    ensures s != "" && s[|s| - 1] == '"' ==> Stored(s) == Escape(s[..|s| - 1]) + "\\"
  {
    if s == "" {
      StoredEmpty();
    } else {
      EscapeEnds(s);
      if s[|s| - 1] == '"' {
        TrimDoublyQuoted(Escape(s[..|s| - 1]) + "\\");
      } else {
        TrimQuoted(Escape(s));
      }
    }
  }

  /** The trigger stores a string as it is exactly when the string needs no
      JSON escape. */
  lemma StoredIsFaithful(s: string)
    ensures Stored(s) == s <==> Plain(s)
  {
    StoredText(s);
    EscapeOfPlain(s);
    if s != "" {
      if s[|s| - 1] == '"' {
        var kept := Stored(s);
        assert kept[|kept| - 1] == '\\';
        assert NeedsEscape(s[|s| - 1]);
      }
    }
  }

  // ---- reading a stored text back ----

  function UnescapeCode(c: char): char {
    if c == 'n' then '\n' else if c == 'r' then '\r' else if c == 't' then '\t'
    else if c == 'b' then 8 as char else if c == 'f' then 12 as char else c
  }

  /** The string behind a stored text. A backslash at the very end is what
      trimming has left of an escaped quote. */
  function Unescape(t: string): string {
    if t == "" then ""
    else if t[0] != '\\' then [t[0]] + Unescape(t[1..])
    else if |t| == 1 then "\""
    else if t[1] == 'u' && |t| >= 6 && IsHexDigit(t[4]) && IsHexDigit(t[5])
    then [(16 * Nibble(t[4]) + Nibble(t[5])) as char] + Unescape(t[6..])
    else [UnescapeCode(t[1])] + Unescape(t[2..])
  }

  lemma Regroup(a: string, b: string, c: string)
    ensures a + b + c == a + (b + c)
  {
  }

  lemma UnescapeChar(c: char, t: string)
    ensures Unescape(EscapeChar(c) + t) == [c] + Unescape(t)
  {
    var text := EscapeChar(c) + t;
    if !NeedsEscape(c) {
      assert text[1..] == t;
    } else if |EscapeChar(c)| == 2 {
      assert text[2..] == t;
    } else {
      assert text[6..] == t;
      assert text[4] == Digit(c as int / 16) && text[5] == Digit(c as int % 16);
    }
  }

  lemma {:induction false} UnescapeEscape(s: string, t: string)
    ensures Unescape(Escape(s) + t) == s + Unescape(t)
  {
    if s == "" {
      assert Escape(s) + t == t;
    } else {
      var init, last := s[..|s| - 1], s[|s| - 1];
      UnescapeEscape(init, EscapeChar(last) + t);
      UnescapeChar(last, t);
      Regroup(Escape(init), EscapeChar(last), t);
      Regroup(init, [last], Unescape(t));
      assert s == init + [last];
    }
  }

  lemma UnescapeWhole(s: string)
    ensures Unescape(Escape(s)) == s
  {
    UnescapeEscape(s, "");
    assert Escape(s) + "" == Escape(s) && s + "" == s;
  }

  /** No two strings are stored alike, and reading back inverts storing. */
  lemma StoredInverse(s: string)
    ensures Unescape(Stored(s)) == s
  {
    StoredText(s);
    if s != "" && s[|s| - 1] == '"' {
      UnescapeEscape(s[..|s| - 1], "\\");
      assert Unescape("\\") == "\"";
      assert s == s[..|s| - 1] + "\"";
    } else {
      UnescapeWhole(s);
    }
  }

  /** A text without escapes is stored for one string only, itself. */
  lemma StoredPlain(s: string, v: string)
    requires Plain(v)
    ensures Stored(s) == v <==> s == v
  {
    StoredIsFaithful(v);
    StoredInverse(s);
    StoredInverse(v);
  }

  lemma StaysEscaped(s: string)
    requires !Plain(s)
    ensures !Plain(Stored(s))
  {
    StoredIsFaithful(s);
    if Plain(Stored(s)) { StoredPlain(s, Stored(s)); }
  }

  /** A stored text is no shorter than its string, and longer unless the string
      ends in a quote, in which the stored text never does. */
  lemma NoShorter(s: string)
    requires !Plain(s)
    ensures |Stored(s)| >= |s| && (s[|s| - 1] != '"' ==> |Stored(s)| > |s|)
    ensures Stored(s)[|Stored(s)| - 1] != '"'
  {
    StoredText(s);
    EscapeOfPlain(s);
    EscapeOfPlain(s[..|s| - 1]);
    EscapeEnds(s);
  }

  /** What needs an escape still does once stored, and grows when stored
      again. */
  lemma StoredGrows(s: string)
    requires !Plain(s)
    ensures !Plain(Stored(s)) && |Stored(s)| >= |s| && |Stored(Stored(s))| > |s|
  {
    StaysEscaped(s);
    NoShorter(s);
    StaysEscaped(Stored(s));
    NoShorter(Stored(s));
  }

  lemma {:induction false} NoControls(s: string)
    ensures forall c :: c in Escape(s) ==> c >= ' '
  {
    if s != "" {
      NoControls(s[..|s| - 1]);
      var text := EscapeChar(s[|s| - 1]);
      assert forall i :: 0 <= i < |text| ==> text[i] >= ' ';
    }
  }

  /** A stored text holds no control character, NUL among them. */
  lemma StoredHasNoControls(s: string)
    ensures forall c :: c in Stored(s) ==> c >= ' '
  {
    StoredText(s);
    NoControls(s);
    if s != "" { NoControls(s[..|s| - 1]); }
  }

  /** What is stored for a character that needs an escape: its JSON escape,
      and one backslash for the quote. */
  lemma StoredEscape(c: char)
    requires NeedsEscape(c)
    ensures Stored([c]) == if c == '"' then "\\" else "\\" + EscapeCode(c)
  {
    StoredText([c]);
    assert [c][..0] == "" && Escape("") == "" && Escape([c]) == EscapeChar(c);
  }

  /** The escapes of JSON text, RFC 8259, section 7. */
  lemma EscapeCodes()
    ensures EscapeCode('\\') == "\\" && EscapeCode('\n') == "n" && EscapeCode('\r') == "r" && EscapeCode('\t') == "t"
    ensures EscapeCode(8 as char) == "b" && EscapeCode(12 as char) == "f"
    ensures EscapeCode(0 as char) == "u0000" && EscapeCode(1 as char) == "u0001" && EscapeCode(11 as char) == "u000b"
    ensures EscapeCode(16 as char) == "u0010" && EscapeCode(31 as char) == "u001f"
  {
  }

  // ---- the rows of one event ----

  /** The row that one tag contributes: a one-character name and a value that
      is present and not empty. */
  function TagEntry(id: seq<Byte>, tag: Tag): (rows: seq<TagRow>) {
    if |tag| >= 2 && |Stored(tag[0])| == 1 && Stored(tag[1]) != ""
    then [TagRow(id, Stored(tag[0]), Stored(tag[1]))]
    else []
  }

  function TagRowsOf(id: seq<Byte>, tags: seq<Tag>): (rows: seq<TagRow>) {
    if tags == [] then []
    else TagRowsOf(id, tags[..|tags| - 1]) + TagEntry(id, tags[|tags| - 1])
  }

  lemma TagRowsSnoc(id: seq<Byte>, tags: seq<Tag>, k: nat)
    requires k < |tags|
    ensures TagRowsOf(id, tags[..k + 1]) == TagRowsOf(id, tags[..k]) + TagEntry(id, tags[k])
  {
    assert tags[..k + 1][..k] == tags[..k];
  }

  /** Every row is the event's own, with a one-character name and a value. */
  lemma {:induction false} TagRowsBelong(id: seq<Byte>, tags: seq<Tag>)
    ensures forall r :: r in TagRowsOf(id, tags) ==> r.eventId == id && |r.name| == 1 && r.value != ""
  {
    if tags != [] { TagRowsBelong(id, tags[..|tags| - 1]); }
  }

  lemma TagEntryStored(id: seq<Byte>, tag: Tag, name: string, value: string)
    ensures TagRow(id, name, value) in TagEntry(id, tag) <==>
            |name| == 1 && value != "" && |tag| >= 2 && Stored(tag[0]) == name && Stored(tag[1]) == value
  {
  }

  /** The index holds exactly the stored forms of the tags that have a
      one-character stored name and a stored value. */
  lemma {:induction false} TagRowsStored(id: seq<Byte>, tags: seq<Tag>, name: string, value: string)
    ensures TagRow(id, name, value) in TagRowsOf(id, tags) <==>
            |name| == 1 && value != "" &&
            exists i :: 0 <= i < |tags| && |tags[i]| >= 2 && Stored(tags[i][0]) == name && Stored(tags[i][1]) == value
  {
    if tags != [] {
      var init, last := tags[..|tags| - 1], tags[|tags| - 1];
      TagRowsStored(id, init, name, value);
      TagEntryStored(id, last, name, value);
      assert forall i :: 0 <= i < |init| ==> init[i] == tags[i];
      assert TagRow(id, name, value) in TagRowsOf(id, tags) <==>
             TagRow(id, name, value) in TagRowsOf(id, init) || TagRow(id, name, value) in TagEntry(id, last);
    }
  }

  /** A name and value that need no escape are indexed exactly when a tag has
      them, whatever the other strings of the tags hold. */
  lemma TagRowsMeaning(id: seq<Byte>, tags: seq<Tag>, name: string, value: string)
    requires Plain(name) && Plain(value)
    ensures TagRow(id, name, value) in TagRowsOf(id, tags) <==>
            |name| == 1 && value != "" &&
            exists i :: 0 <= i < |tags| && |tags[i]| >= 2 && tags[i][0] == name && tags[i][1] == value
  {
    TagRowsStored(id, tags, name, value);
    forall s ensures (Stored(s) == name <==> s == name) && (Stored(s) == value <==> s == value) {
      StoredPlain(s, name);
      StoredPlain(s, value);
    }
  }
}
