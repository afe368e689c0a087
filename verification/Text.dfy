/** Splitting at a separator and decimal numbers, the two text shapes of a stored hash. */
module Text {
  import opened Wrappers

  /** strings.Split with a one-character separator. */
  function Split(text: string, separator: char): (parts: seq<string>)
    ensures |parts| > 0
  {
    if text == "" then [""]
    else
      var rest := Split(text[1..], separator);
      if text[0] == separator then [""] + rest else [[text[0]] + rest[0]] + rest[1..]
  }

  function Join(parts: seq<string>, separator: char): (r: string)
    requires parts != []
  {
    if |parts| == 1 then parts[0] else parts[0] + [separator] + Join(parts[1..], separator)
  }

  ghost predicate Free(parts: seq<string>, separator: char) {
    forall i :: 0 <= i < |parts| ==> separator !in parts[i]
  }

  /** Splitting undoes joining for parts without the separator. */
  lemma {:induction false} SplitJoin(parts: seq<string>, separator: char)
    requires parts != [] && Free(parts, separator)
    ensures Split(Join(parts, separator), separator) == parts
  {
    if |parts| == 1 {
      SplitWord(parts[0], separator);
    } else {
      SplitJoin(parts[1..], separator);
      SplitHead(parts[0], Join(parts[1..], separator), separator);
      assert parts == [parts[0]] + parts[1..];
    }
  }

  lemma {:induction false} SplitWord(word: string, separator: char)
    requires separator !in word
    ensures Split(word, separator) == [word]
  {
    if word != "" {
      SplitWord(word[1..], separator);
      assert [word[0]] + word[1..] == word;
    }
  }

  lemma {:induction false} SplitHead(word: string, rest: string, separator: char)
    requires separator !in word
    ensures Split(word + [separator] + rest, separator) == [word] + Split(rest, separator)
  {
    var text := word + [separator] + rest;
    if word == "" {
      assert text[1..] == rest;
    } else {
      SplitHead(word[1..], rest, separator);
      assert text[1..] == word[1..] + [separator] + rest;
      assert [word[0]] + word[1..] == word;
    }
  }

  lemma JoinPrepend(c: char, parts: seq<string>, separator: char)
    requires parts != []
    ensures Join([[c] + parts[0]] + parts[1..], separator) == [c] + Join(parts, separator)
  {
    var longer := [[c] + parts[0]] + parts[1..];
    assert longer[1..] == parts[1..];
    if |parts| > 1 {
      assert [c] + parts[0] + [separator] + Join(parts[1..], separator)
          == [c] + (parts[0] + [separator] + Join(parts[1..], separator));
    }
  }

  lemma JoinEmpty(parts: seq<string>, separator: char)
    requires parts != []
    ensures Join([""] + parts, separator) == [separator] + Join(parts, separator)
  {
    assert ([""] + parts)[1..] == parts;
    assert "" + [separator] == [separator];
  }

  /** Joining undoes splitting, and no part holds the separator. */
  lemma {:induction false} JoinSplit(text: string, separator: char)
    ensures Join(Split(text, separator), separator) == text
    ensures Free(Split(text, separator), separator)
  {
    if text != "" {
      var rest := Split(text[1..], separator);
      JoinSplit(text[1..], separator);
      assert text == [text[0]] + text[1..];
      if text[0] == separator {
        JoinEmpty(rest, separator);
      } else {
        JoinPrepend(text[0], rest, separator);
        assert separator !in [text[0]] + rest[0];
      }
    }
  }

  const MAX_UINT32 := 0xFFFF_FFFF

  function Digit(d: nat): (r: char)
    requires d < 10
  {
    "0123456789"[d]
  }

  predicate IsDigit(c: char) {
    '0' <= c <= '9'
  }

  function DigitValue(c: char): (d: nat)
    requires IsDigit(c)
    ensures d < 10 && Digit(d) == c
  {
    c as int - '0' as int
  }

  /** fmt's %d of a natural number. */
  function Decimal(n: nat): (r: string) {
    if n < 10 then [Digit(n)] else Decimal(n / 10) + [Digit(n % 10)]
  }

  predicate AllDigits(text: string) {
    forall c :: c in text ==> IsDigit(c)
  }

  function Value(text: string): (r: nat)
    requires AllDigits(text)
  {
    if text == "" then 0 else Value(text[..|text| - 1]) * 10 + DigitValue(text[|text| - 1])
  }

  /** strconv.ParseUint in base 10 with 32 bits. */
  function ParseUint(text: string): (r: Option<nat>) {
    if text != "" && AllDigits(text) && Value(text) <= MAX_UINT32 then Some(Value(text)) else None
  }

  lemma {:induction false} DecimalReadsBack(n: nat)
    ensures AllDigits(Decimal(n)) && Decimal(n) != "" && Value(Decimal(n)) == n
    ensures n > 0 ==> Decimal(n)[0] != '0'
  {
    var text := Decimal(n);
    if n >= 10 {
      DecimalReadsBack(n / 10);
      assert text[..|text| - 1] == Decimal(n / 10);
    } else {
      assert text[..|text| - 1] == "";
    }
  }

  /** A digit string is the printed form of its value iff it has no leading zero. */
  lemma {:induction false} PrintedIffNoLeadingZero(text: string)
    requires text != "" && AllDigits(text)
    ensures text == Decimal(Value(text)) <==> |text| == 1 || text[0] != '0'
    ensures text[0] != '0' ==> Value(text) > 0
  {
    var n := |text|;
    var last := DigitValue(text[n - 1]);
    if n > 1 {
      var front := text[..n - 1];
      assert text == front + [text[n - 1]];
      PrintedIffNoLeadingZero(front);
      assert Value(text) / 10 == Value(front) && Value(text) % 10 == last;
      DecimalReadsBack(Value(text));
      if text[0] != '0' {
        assert Value(front) > 0;
      } else if Value(text) == 0 {
        assert |Decimal(0)| == 1;
      }
    } else {
      assert Value(text[..0]) == 0;
    }
  }

  /** Printed numbers are read as long as they have 32 bits. */
  lemma ReadsPrinted(n: nat)
    ensures ParseUint(Decimal(n)) == if n < 4_294_967_296 then Some(n) else None
  {
    DecimalReadsBack(n);
  }
}
