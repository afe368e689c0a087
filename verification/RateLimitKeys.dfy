/** Which texts are budgets' keys, and how much of a key its redacted hint shows. */
module RateLimitKeys {
  import opened Wrappers
  import opened RateLimiting

  /** strings.TrimSpace for ASCII. */
  function Trim(text: string): (r: string) {
    if text != "" && text[0] in " \t\n\U{0B}\U{0C}\r" then Trim(text[1..])
    else if text != "" && text[|text| - 1] in " \t\n\U{0B}\U{0C}\r" then Trim(text[..|text| - 1])
    else text
  }

  lemma SpaceIff(c: char)
    ensures IsSpace(c) <==> c in " \t\n\U{0B}\U{0C}\r"
  {
    if IsSpace(c) && c != ' ' {
      assert c == " \t\n\U{0B}\U{0C}\r"[1 + (c as int - '\t' as int)];
    } else if c == ' ' {
      assert c == " \t\n\U{0B}\U{0C}\r"[0];
    }
  }

  lemma {:induction false} TrimIsEmptyIff(text: string)
    ensures Trim(text) == "" <==> forall i :: 0 <= i < |text| ==> IsSpace(text[i])
  {
    forall c: char
      ensures IsSpace(c) <==> c in " \t\n\U{0B}\U{0C}\r"
    {
      SpaceIff(c);
    }
    if text != "" && IsSpace(text[0]) {
      TrimIsEmptyIff(text[1..]);
      forall i | 0 < i < |text|
        ensures text[i] == text[1..][i - 1]
      {
      }
    } else if text != "" && IsSpace(text[|text| - 1]) {
      TrimIsEmptyIff(text[..|text| - 1]);
      assert text[..|text| - 1][0] == text[0];
    }
  }

  /** A key is valid iff it is more than white space, at most 255 bytes, and free of NUL and line breaks. */
  lemma KeyIsValidIff(key: string)
    ensures ValidKey(key) <==>
              Trim(key) != "" && |key| < 256 && forall i :: 0 <= i < |key| ==> key[i] !in "\0\r\n"
  {
    TrimIsEmptyIff(key);
    forall i | 0 <= i < |key|
      ensures key[i] in "\0\r\n" <==> key[i] == '\0' || key[i] == '\r' || key[i] == '\n'
    {
      assert "\0\r\n"[0] == '\0' && "\0\r\n"[1] == '\r' && "\0\r\n"[2] == '\n';
    }
  }

  /** Any printable text of up to 255 bytes that starts with more than a space is valid, so
      ordinary addresses and identifiers and the two sign-in actions are. */
  lemma PrintableIsValid(key: string)
    requires 0 < |key| <= 255 && key[0] != ' ' && forall i :: 0 <= i < |key| ==> ' ' <= key[i] <= '~'
    ensures ValidKey(key) && ValidKey("signin.identifier") && ValidKey("signin.origin")
  {
    assert !IsSpace(key[0]) && !IsSpace("signin.identifier"[0]) && !IsSpace("signin.origin"[0]);
  }

  /** A hint is as long as its key and shows at most its two outer characters, of a key of three or more. */
  lemma HintHides(key: string)
    ensures |Redact(key)| == |key|
    ensures forall i :: 0 <= i < |key| ==>
              Redact(key)[i] == if 2 < |key| && (i == 0 || i == |key| - 1) then key[i] else '*'
  {
  }
}
