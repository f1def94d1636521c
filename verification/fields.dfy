/**
 * The values the parser produces (`Field`, `Paragraph` of src/lib.rs) and the
 * shared helpers of src/parser/mod.rs: the field-name character predicates,
 * the transient `FieldDefinition`/`Line` values, and `field_from_parts`,
 * which folds a definition line and its continuation lines into a field.
 */
module Fields {

  /** A field; the name is an owned copy of the slice the source borrows. */
  datatype Field = Field(name: string, value: string)

  /** The fields of one paragraph, in input order, duplicates kept. */
  datatype Paragraph = Paragraph(fields: seq<Field>)

  /** The name and the first-line value of a field definition line. */
  datatype FieldDefinition = FieldDefinition(name: string, value: string)

  /** A line that may follow a field definition line. */
  datatype Line = Continuation(text: string) | Comment | Blank

  /** `is_field_name_char`: ASCII graphic (0x21..0x7E) and not a colon. */
  predicate IsFieldNameChar(c: char) {
    '!' <= c <= '~' && c != ':'
  }

  /** `starts_with_valid_char`: the name does not start with '#' or '-'. */
  predicate StartsWithValidChar(name: string) {
    !(|name| > 0 && name[0] == '#') && !(|name| > 0 && name[0] == '-')
  }

  /** Space, tab, the colon and every character beyond ASCII are refused in a name. */
  lemma NameCharRejects(c: char)
    ensures c == ' ' || c == '\t' || c == ':' || c as int > 0x7E ==> !IsFieldNameChar(c)
    ensures 'a' <= c <= 'z' || 'A' <= c <= 'Z' || '0' <= c <= '9' || c == '-' ==> IsFieldNameChar(c)
  {
  }

  /** Only a leading '#' or '-' is refused; the empty name passes. */
  lemma StartsWithValidCharCases(name: string)
    ensures StartsWithValidChar([])
    ensures |name| > 0 ==> (StartsWithValidChar(name) <==> name[0] != '#' && name[0] != '-')
  {
  }

  /** What one line contributes to the value of the field it follows. */
  function Contribution(line: Line): string {
    if line.Continuation? then "\n" + line.text else ""
  }

  /** What a list of lines contributes, in list order. */
  function Appended(lines: seq<Line>): string {
    if lines == [] then "" else Contribution(lines[0]) + Appended(lines[1..])
  }

  /**
   * The field that `field_from_parts` builds: the definition's name, and a
   * value that starts with the definition-line value and is longer exactly
   * when some line is a continuation.
   */
  function FoldedField(def: FieldDefinition, lines: seq<Line>): (r: Field)
    ensures r.name == def.name
    ensures |def.value| <= |r.value| && r.value[..|def.value|] == def.value
    ensures r.value == def.value <==> Continuations(lines) == 0
  {
    NothingAppendedIffNoContinuation(lines);
    Field(def.name, def.value + Appended(lines))
  }

  /** `field_from_parts`: the value grows line by line in a mutable string. */
  method FieldFromParts(def: FieldDefinition, lines: seq<Line>) returns (field: Field)
    ensures field == FoldedField(def, lines)
  {
    var value := def.value;
    for i := 0 to |lines|
      invariant value == def.value + Appended(lines[..i])
    {
      AppendedStep(lines, i);
      if lines[i].Continuation? {
        value := value + "\n";
        value := value + lines[i].text;
      }
    }
    assert lines[..|lines|] == lines;
    field := Field(def.name, value);
  }

  /** One more line adds its contribution at the end. */
  lemma AppendedStep(lines: seq<Line>, i: nat)
    requires i < |lines|
    ensures Appended(lines[..i + 1]) == Appended(lines[..i]) + Contribution(lines[i])
    ensures lines[i].Continuation? ==> Contribution(lines[i]) == "\n" + lines[i].text
    ensures !lines[i].Continuation? ==> Contribution(lines[i]) == []
  {
    AppendedConcat(lines[..i], [lines[i]]);
    assert lines[..i + 1] == lines[..i] + [lines[i]];
    assert Appended([lines[i]]) == Contribution(lines[i]) + Appended([]);
  }

  /** The texts of the continuation lines, in order. */
  function ContinuationTexts(lines: seq<Line>): (texts: seq<string>)
    ensures |texts| <= |lines|
  {
    if lines == [] then []
    else (if lines[0].Continuation? then [lines[0].text] else []) + ContinuationTexts(lines[1..])
  }

  /** Each text preceded by a newline, all concatenated. */
  function NewlineJoined(texts: seq<string>): string {
    if texts == [] then "" else "\n" + texts[0] + NewlineJoined(texts[1..])
  }

  /** Occurrences of `c` in `s`. */
  function Count(c: char, s: string): nat {
    if s == [] then 0 else (if s[0] == c then 1 else 0) + Count(c, s[1..])
  }

  lemma {:induction false} AppendedConcat(a: seq<Line>, b: seq<Line>)
    ensures Appended(a + b) == Appended(a) + Appended(b)
  {
    if a == [] {
      assert a + b == b;
    } else {
      assert (a + b)[0] == a[0];
      assert (a + b)[1..] == a[1..] + b;
      AppendedConcat(a[1..], b);
    }
  }

  /**
   * The value is the definition-line value followed by "\n" + text for each
   * continuation line, in list order; comment and blank lines add nothing.
   */
  lemma {:induction false} FoldedValueIsJoinedContinuations(def: FieldDefinition, lines: seq<Line>)
    ensures FoldedField(def, lines).name == def.name
    ensures FoldedField(def, lines).value == def.value + NewlineJoined(ContinuationTexts(lines))
  {
    AppendedIsJoined(lines);
  }

  lemma {:induction false} AppendedIsJoined(lines: seq<Line>)
    ensures Appended(lines) == NewlineJoined(ContinuationTexts(lines))
  {
    if lines != [] {
      AppendedIsJoined(lines[1..]);
      if lines[0].Continuation? {
        assert ContinuationTexts(lines) == [lines[0].text] + ContinuationTexts(lines[1..]);
        assert ContinuationTexts(lines)[1..] == ContinuationTexts(lines[1..]);
      } else {
        assert ContinuationTexts(lines) == ContinuationTexts(lines[1..]);
      }
    }
  }

  /** Comment and blank lines between continuation lines change nothing. */
  lemma CommentsAndBlanksAddNothing(before: seq<Line>, line: Line, after: seq<Line>)
    requires !line.Continuation?
    ensures Appended(before + [line] + after) == Appended(before + after)
  {
    AppendedConcat(before + [line], after);
    AppendedConcat(before, [line]);
    AppendedConcat(before, after);
  }

  /** Without continuation lines, the value is the definition-line value. */
  lemma {:induction false} NoContinuationsKeepValue(def: FieldDefinition, lines: seq<Line>)
    requires forall i :: 0 <= i < |lines| ==> !lines[i].Continuation?
    ensures FoldedField(def, lines).value == def.value
  {
    if lines != [] {
      NoContinuationsKeepValue(def, lines[1..]);
    }
  }

  lemma {:induction false} CountConcat(c: char, s: string, t: string)
    ensures Count(c, s + t) == Count(c, s) + Count(c, t)
  {
    if s == [] {
      assert s + t == t;
    } else {
      assert (s + t)[0] == s[0];
      assert (s + t)[1..] == s[1..] + t;
      CountConcat(c, s[1..], t);
    }
  }

  /** The lines add nothing exactly when none of them is a continuation line. */
  lemma {:induction false} NothingAppendedIffNoContinuation(lines: seq<Line>)
    ensures Appended(lines) == [] <==> Continuations(lines) == 0
  {
    if lines != [] {
      NothingAppendedIffNoContinuation(lines[1..]);
    }
  }

  /** Number of continuation lines. */
  function Continuations(lines: seq<Line>): nat {
    if lines == [] then 0 else (if lines[0].Continuation? then 1 else 0) + Continuations(lines[1..])
  }

  /**
   * Folding adds exactly one newline per continuation line (when the texts
   * themselves hold none, as the grammar guarantees).
   */
  lemma {:induction false} NewlinesAddedPerContinuation(lines: seq<Line>)
    requires forall i :: 0 <= i < |lines| && lines[i].Continuation? ==> Count('\n', lines[i].text) == 0
    ensures Count('\n', Appended(lines)) == Continuations(lines)
  {
    if lines != [] {
      NewlinesAddedPerContinuation(lines[1..]);
      CountConcat('\n', Contribution(lines[0]), Appended(lines[1..]));
      if lines[0].Continuation? {
        CountConcat('\n', "\n", lines[0].text);
      }
    }
  }
}
