/** The slug of a document: its grammar, the recogniser that checks it, and the parse into a fixed buffer. */
module Slug {

  const CAPACITY: nat := 64

  type Byte = b: int | 0 <= b < 256

  const NUL: Byte := 0
  const HYPHEN: Byte := '-' as int

  predicate Alnum(c: Byte) {
    'a' as int <= c <= 'z' as int || '0' as int <= c <= '9' as int
  }

  const LETTERS_AND_DIGITS: string := "abcdefghijklmnopqrstuvwxyz0123456789"

  lemma ListedAt(i: nat)
    requires i < 36
    ensures |LETTERS_AND_DIGITS| == 36 && LETTERS_AND_DIGITS[i] as int == if i < 26 then 97 + i else 22 + i
  {
  }

  /** The characters of a segment are the lowercase letters and the digits, and no others. */
  lemma AlnumIsListed(c: Byte)
    ensures Alnum(c) <==> exists i: nat | i < 36 :: Listed(i) == c
  {
    if Alnum(c) {
      var i := if c >= 97 then c - 97 else c - 22;
      ListedAt(i);
      assert Listed(i) == c;
    }
    if i: nat :| i < 36 && Listed(i) == c {
      ListedAt(i);
    }
  }

  /** The code of the i-th of them. */
  function Listed(i: nat): int
    requires i < 36
  {
    LETTERS_AND_DIGITS[i] as int
  }

  // ---- The grammar ------------------------------------------------------------------------------------------------

  /** A run of lowercase letters and digits. */
  predicate Segment(s: seq<Byte>) {
    s != [] && forall i | 0 <= i < |s| :: Alnum(s[i])
  }

  predicate Segments(list: seq<seq<Byte>>) {
    forall i | 0 <= i < |list| :: Segment(list[i])
  }

  /** The segments with a single hyphen between each two. */
  function Join(segments: seq<seq<Byte>>): seq<Byte>
    requires segments != []
  {
    if |segments| == 1 then segments[0] else segments[0] + [HYPHEN] + Join(segments[1..])
  }

  /** The parts between hyphens. */
  function Split(text: seq<Byte>): (parts: seq<seq<Byte>>)
    ensures parts != []
  {
    if text == [] then
      [[]]
    else
      var parts := Split(text[1..]);
      if text[0] == HYPHEN then [[]] + parts else [[text[0]] + parts[0]] + parts[1..]
  }

  /** One or more segments joined by single hyphens. */
  ghost predicate IsSlug(text: seq<Byte>) {
    exists segments: seq<seq<Byte>> :: segments != [] && Segments(segments) && text == Join(segments)
  }

  lemma JoinAfter(segment: seq<Byte>, rest: seq<seq<Byte>>)
    requires rest != []
    ensures Join([segment] + rest) == segment + [HYPHEN] + Join(rest)
  {
    assert ([segment] + rest)[1..] == rest;
  }

  /** A byte put before the first of the parts comes before the text they join to. */
  lemma JoinLonger(c: Byte, parts: seq<seq<Byte>>)
    requires parts != []
    ensures Join([[c] + parts[0]] + parts[1..]) == [c] + Join(parts)
  {
    if |parts| == 1 {
      assert [[c] + parts[0]] + parts[1..] == [[c] + parts[0]];
    } else {
      assert parts == [parts[0]] + parts[1..];
      hide Join;
      JoinAfter([c] + parts[0], parts[1..]);
      JoinAfter(parts[0], parts[1..]);
      InFront([c], parts[0], Join(parts[1..]));
    }
  }

  lemma InFront(a: seq<Byte>, b: seq<Byte>, c: seq<Byte>)
    ensures a + b + [HYPHEN] + c == a + (b + [HYPHEN] + c)
  {
  }

  lemma {:induction false} JoinOfSplit(text: seq<Byte>)
    ensures Join(Split(text)) == text
  {
    if text != [] {
      hide Join;
      var parts := Split(text[1..]);
      JoinOfSplit(text[1..]);
      assert text == [text[0]] + text[1..];
      if text[0] == HYPHEN {
        JoinAfter([], parts);
        assert [] + [HYPHEN] + text[1..] == text;
      } else {
        JoinLonger(text[0], parts);
      }
    }
  }

  /** Splitting text that begins with a hyphenless part only lengthens the first of its parts. */
  lemma {:induction false} SplitAfterPart(part: seq<Byte>, text: seq<Byte>)
    requires HYPHEN !in part
    ensures Split(part + text) == [part + Split(text)[0]] + Split(text)[1..]
  {
    if part == [] {
      assert part + text == text && part + Split(text)[0] == Split(text)[0];
    } else {
      SplitAfterPart(part[1..], text);
      assert part[0] in part && (part + text)[1..] == part[1..] + text;
      assert part + Split(text)[0] == [part[0]] + (part[1..] + Split(text)[0]);
    }
  }

  lemma {:induction false} SplitOfJoin(segments: seq<seq<Byte>>)
    requires segments != [] && forall i | 0 <= i < |segments| :: HYPHEN !in segments[i]
    ensures Split(Join(segments)) == segments
  {
    if |segments| == 1 {
      SplitAfterPart(segments[0], []);
      assert segments[0] + [] == segments[0];
    } else {
      var rest := Join(segments[1..]);
      SplitOfJoin(segments[1..]);
      SplitAfterPart(segments[0], [HYPHEN] + rest);
      assert ([HYPHEN] + rest)[1..] == rest && Split([HYPHEN] + rest) == [[]] + segments[1..];
      assert Join(segments) == segments[0] + ([HYPHEN] + rest);
      assert segments[0] + [] == segments[0];
    }
  }

  // ---- The rule the recogniser checks -----------------------------------------------------------------------------

  /** Letters, digits and hyphens only, and no two hyphens next to each other. */
  predicate Spaced(text: seq<Byte>) {
    && (forall i | 0 <= i < |text| :: Alnum(text[i]) || text[i] == HYPHEN)
    && forall i | 0 <= i < |text| - 1 :: !(text[i] == HYPHEN && text[i + 1] == HYPHEN)
  }

  /** No hyphen at either end. */
  predicate Bounded(text: seq<Byte>)
    requires text != []
  {
    text[0] != HYPHEN && text[|text| - 1] != HYPHEN
  }

  lemma {:induction false} SpacedPartsAreSegments(text: seq<Byte>)
    requires text != [] && Spaced(text) && text[|text| - 1] != HYPHEN
    ensures text[0] != HYPHEN ==> Segment(Split(text)[0])
    ensures text[0] == HYPHEN ==> Split(text)[0] == []
    ensures Segments(Split(text)[1..])
  {
    var rest := text[1..];
    if rest != [] {
      assert forall i | 0 <= i < |rest| :: rest[i] == text[i + 1];
      SpacedPartsAreSegments(rest);
      assert text[0] == HYPHEN ==> text[1] != HYPHEN;
      assert Split(rest) == [Split(rest)[0]] + Split(rest)[1..];
    }
  }

  lemma {:induction false} JoinIsSpaced(segments: seq<seq<Byte>>)
    requires segments != [] && Segments(segments)
    ensures Join(segments) != [] && Spaced(Join(segments)) && Bounded(Join(segments))
  {
    if |segments| > 1 {
      JoinIsSpaced(segments[1..]);
      var first, rest := segments[0], Join(segments[1..]);
      var text := first + [HYPHEN] + rest;
      forall i | 0 <= i < |text| - 1 ensures !(text[i] == HYPHEN && text[i + 1] == HYPHEN) {
        if i > |first| {
          assert text[i] == rest[i - |first| - 1] && text[i + 1] == rest[i - |first|];
        }
      }
    }
  }

  /** The two forms of the rule agree: what is spaced and bounded is exactly what joins segments. */
  lemma RuleIsGrammar(text: seq<Byte>)
    requires text != []
    ensures Spaced(text) && Bounded(text) <==> IsSlug(text)
  {
    if Spaced(text) && Bounded(text) {
      SpacedPartsAreSegments(text);
      JoinOfSplit(text);
      var parts := Split(text);
      assert parts == [parts[0]] + parts[1..];
    }
    if IsSlug(text) {
      var segments :| segments != [] && Segments(segments) && text == Join(segments);
      JoinIsSpaced(segments);
    }
  }

  /** A slug has one reading: its segments are the parts between its hyphens. */
  lemma OneReading(segments: seq<seq<Byte>>)
    requires segments != [] && Segments(segments)
    ensures IsSlug(Join(segments)) && Split(Join(segments)) == segments
  {
    SplitOfJoin(segments);
  }

  // ---- The recogniser ---------------------------------------------------------------------------------------------

  method IsValid(bytes: seq<Byte>) returns (valid: bool)
    requires bytes != []
    ensures valid <==> IsSlug(bytes)
  {
    RuleIsGrammar(bytes);
    if bytes[0] == HYPHEN || bytes[|bytes| - 1] == HYPHEN {
      return false;
    }
    for i := 0 to |bytes|
      invariant forall j | 0 <= j < i :: Alnum(bytes[j]) || bytes[j] == HYPHEN
      invariant forall j | 0 <= j < i && j + 1 < |bytes| :: !(bytes[j] == HYPHEN && bytes[j + 1] == HYPHEN)
    {
      var c := bytes[i];
      var isLower := 'a' as int <= c <= 'z' as int;
      var isDigit := '0' as int <= c <= '9' as int;
      if !isLower && !isDigit && c != HYPHEN {
        return false;
      }
      if c == HYPHEN && bytes[i + 1] == HYPHEN {
        return false;
      }
    }
    return true;
  }

  // ---- The parse --------------------------------------------------------------------------------------------------

  /** A validated slug, kept in a buffer of CAPACITY bytes. */
  datatype DocSlug = DocSlug(bytes: seq<Byte>, length: nat)

  datatype Parse = Parsed(slug: DocSlug) | Empty | TooLong | Invalid

  /** The text at the front of a stretch of memory: up to the first NUL, or all of it when there is none. */
  function Text(memory: seq<Byte>): (text: seq<Byte>)
    ensures |text| <= |memory| && text == memory[..|text|] && NUL !in text
    ensures |text| < |memory| ==> memory[|text|] == NUL
  {
    if memory == [] || memory[0] == NUL then [] else [memory[0]] + Text(memory[1..])
  }

  /** Whether a value is what the parse hands out: a slug that fits, NUL-terminated in its buffer. */
  ghost predicate Holds(slug: DocSlug, text: seq<Byte>) {
    && slug.length == |text| < CAPACITY == |slug.bytes|
    && slug.bytes == text + seq(CAPACITY - |text|, i => NUL)
  }

  /** What the parse makes of a text. */
  ghost predicate Outcome(text: seq<Byte>, parse: Parse) {
    if text == [] then parse == Empty
    else if |text| >= CAPACITY then parse == TooLong
    else if !IsSlug(text) then parse == Invalid
    else parse.Parsed? && Holds(parse.slug, text)
  }

  /** The first CAPACITY bytes of the input have to be there to read, or a NUL before them. */
  method FromString(input: seq<Byte>) returns (parse: Parse)
    requires NUL in input || |input| >= CAPACITY
    ensures Outcome(Text(input), parse)
  {
    var length := 0;
    while length < CAPACITY && input[length] != NUL
      invariant 0 <= length <= CAPACITY && length <= |Text(input)|
    {
      length := length + 1;
    }
    if length == 0 {
      return Empty;
    }
    if length >= CAPACITY {
      return TooLong;
    }
    assert Text(input) == input[..length];
    var valid := IsValid(input[..length]);
    if !valid {
      return Invalid;
    }
    return Parsed(DocSlug(input[..length] + seq(CAPACITY - length, i => NUL), length));
  }

  /** The bytes before the first NUL are the text. */
  lemma {:induction false} TextIs(memory: seq<Byte>, text: seq<Byte>)
    requires NUL !in text && |text| < |memory| && text == memory[..|text|] && memory[|text|] == NUL
    ensures Text(memory) == text
  {
    if text != [] {
      assert text[0] == memory[0];
      TextIs(memory[1..], text[1..]);
    }
  }

  /** Nothing past the first CAPACITY bytes of the input makes a difference. */
  lemma OnlyFrontMatters(input: seq<Byte>, more: seq<Byte>, parse: Parse)
    requires |input| >= CAPACITY
    ensures Outcome(Text(input + more), parse) <==> Outcome(Text(input[..CAPACITY]), parse)
  {
    var front, whole := Text(input[..CAPACITY]), Text(input + more);
    assert (input + more)[..CAPACITY] == input[..CAPACITY];
    if |front| < CAPACITY {
      assert front == (input + more)[..|front|] && (input + more)[|front|] == NUL;
      TextIs(input + more, front);
    } else {
      assert forall i | 0 <= i < CAPACITY :: (input + more)[i] == front[i] && front[i] in front;
    }
  }

  /** Reading a parsed slug's bytes back gives the input's text, and parsing those bytes gives the same slug. */
  lemma ParseRoundTrip(input: seq<Byte>, parse: Parse, again: Parse)
    requires Outcome(Text(input), parse) && parse.Parsed?
    ensures NUL in parse.slug.bytes && Text(parse.slug.bytes) == Text(input)
    ensures Outcome(Text(parse.slug.bytes), again) ==> again == parse
  {
    var text, bytes := Text(input), parse.slug.bytes;
    assert bytes[|text|] == NUL;
    TextIs(bytes, text);
  }
}
