/** Which directory entries are migrations, and what a migration's file name says. */
module MigrationFiles {
  import opened Wrappers
  import opened Text
  import opened Migrations

  /** A description: letters, digits, `_` and `-`, not starting with `_` or `-`. */
  predicate Described(text: string) {
    && text != "" && text[0] != '_' && text[0] != '-'
    && forall i :: 0 <= i < |text| ==>
         'a' <= text[i] <= 'z' || '0' <= text[i] <= '9' || text[i] == '_' || text[i] == '-'
  }

  /** Every character strings.TrimSpace removes. */
  const WHITE_SPACE := "\t\n\U{0B}\U{0C}\r \U{85}\U{A0}\U{1680}\U{2000}\U{2001}\U{2002}\U{2003}\U{2004}\U{2005}"
                       + "\U{2006}\U{2007}\U{2008}\U{2009}\U{200A}\U{2028}\U{2029}\U{202F}\U{205F}\U{3000}"

  lemma SpaceIff(c: char)
    ensures IsSpace(c) <==> c in WHITE_SPACE
  {
    if '\t' <= c <= '\r' {
      assert c == WHITE_SPACE[c as int - '\t' as int];
    } else if '\U{2000}' <= c <= '\U{200A}' {
      assert c == WHITE_SPACE[9 + (c as int - '\U{2000}' as int)];
    } else if IsSpace(c) {
      assert c == WHITE_SPACE[5] || c == WHITE_SPACE[6] || c == WHITE_SPACE[7] || c == WHITE_SPACE[8]
             || c == WHITE_SPACE[20] || c == WHITE_SPACE[21] || c == WHITE_SPACE[22] || c == WHITE_SPACE[23]
             || c == WHITE_SPACE[24];
    }
  }

  /** The parts of a well-formed name. */
  lemma NamedIff(name: string, digits: string, description: string)
    ensures |digits| == 6 && AllDigits(digits) && Described(description)
            && name == digits + "_" + description + ".up.sql"
       <==> && Named(name) && digits == name[..6] && description == name[7..|name| - 7]
  {
    if |digits| == 6 && AllDigits(digits) && Described(description) && name == digits + "_" + description + ".up.sql" {
      assert name[..6] == digits && name[7..|name| - 7] == description && name[|name| - 7..] == ".up.sql";
      forall i | 7 <= i < |name| - 7
        ensures name[i] == description[i - 7]
      {
      }
    }
    if Named(name) && digits == name[..6] && description == name[7..|name| - 7] {
      assert name == digits + "_" + description + ".up.sql";
      forall i | 0 <= i < |description|
        ensures description[i] == name[i + 7]
      {
      }
    }
  }

  /**
   What becomes of a directory entry, from its name's spelling alone: it is skipped unless
   it is a file that ends in ".up.sql", and accepted iff six digits of a positive number,
   an underscore and a description come before that and its script is not blank.
   */
  lemma AcceptedIff(e: Entry, m: Migration)
    ensures OutcomeOf(e) == Skipped <==> e.isDirectory || forall front: string :: e.name != front + ".up.sql"
    ensures OutcomeOf(e) == Accepted(m) <==>
              && !e.isDirectory && m.sql == e.content && (exists c :: c in e.content && c !in WHITE_SPACE)
              && exists digits: string ::
                   && |digits| == 6 && AllDigits(digits) && Value(digits) == m.version > 0
                   && Described(m.description) && e.name == digits + "_" + m.description + ".up.sql"
  {
    if HasSuffix(e.name) {
      assert e.name == e.name[..|e.name| - 7] + ".up.sql";
    }
    forall front: string | e.name == front + ".up.sql"
      ensures HasSuffix(e.name)
    {
      assert e.name[|e.name| - 7..] == ".up.sql";
    }
    forall c: char
      ensures IsSpace(c) <==> c in WHITE_SPACE
    {
      SpaceIff(c);
    }
    forall digits: string
      ensures |digits| == 6 && AllDigits(digits) && Described(m.description)
                && e.name == digits + "_" + m.description + ".up.sql"
           <==> Named(e.name) && digits == e.name[..6] && m.description == e.name[7..|e.name| - 7]
    {
      NamedIff(e.name, digits, m.description);
    }
  }

  function Power(k: nat): (r: nat) {
    if k == 0 then 1 else 10 * Power(k - 1)
  }

  lemma {:induction false} Digits(n: nat, k: nat) returns (digits: string)
    requires n < Power(k)
    ensures |digits| == k && AllDigits(digits) && Value(digits) == n
  {
    if k == 0 {
      digits := "";
    } else {
      digits := Digits(n / 10, k - 1);
      digits := digits + [Digit(n % 10)];
      assert digits[..|digits| - 1] == digits[..k - 1];
    }
  }

  /** Every migration with a six-digit version, a description and a script has a file that is accepted as it. */
  lemma EveryMigrationHasAFile(m: Migration) returns (e: Entry)
    requires 0 < m.version < 1_000_000 && Described(m.description) && exists c :: c in m.sql && c !in WHITE_SPACE
    ensures OutcomeOf(e) == Accepted(m)
  {
    assert Power(3) == 1_000 && Power(6) == 1_000 * Power(3);
    var digits := Digits(m.version, 6);
    e := Entry(digits + "_" + m.description + ".up.sql", false, m.sql);
    AcceptedIff(e, m);
  }
}
