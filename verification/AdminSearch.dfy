/**
 The administrator account list: the LIKE pattern built from a search, the WHERE
 conditions with numbered arguments, and the pages. LIKE follows section 9.7.1 of
 the PostgreSQL manual with the default escape character; ILIKE is LIKE after
 folding both sides, and conditions use SQL's three-valued logic.
 */
module AdminSearch {
  import opened Wrappers

  datatype Token = AnySequence | AnyCharacter | Literal(c: char)

  /** A character of a pattern that no backslash precedes. */
  function Unescaped(c: char): (token: Token) {
    if c == '%' then AnySequence else if c == '_' then AnyCharacter else Literal(c)
  }

  /** Reads a LIKE pattern; a pattern that ends in a lone backslash is an error. */
  function Tokens(pattern: string): (r: Option<seq<Token>>) {
    if pattern == "" then Some([])
    else if pattern[0] == '\\' then
      if |pattern| == 1 then None
      else match Tokens(pattern[2..])
        case Some(rest) => Some([Literal(pattern[1])] + rest)
        case None => None
    else match Tokens(pattern[1..])
      case Some(rest) =>
        Some([Unescaped(pattern[0])] + rest)
      case None => None
  }

  /** Whether a pattern describes the whole text. */
  predicate Matches(tokens: seq<Token>, text: string)
    decreases |tokens|, |text|
  {
    if tokens == [] then text == ""
    else match tokens[0]
      case AnySequence => Matches(tokens[1..], text) || (text != "" && Matches(tokens, text[1..]))
      case AnyCharacter => text != "" && Matches(tokens[1..], text[1..])
      case Literal(c) => text != "" && text[0] == c && Matches(tokens[1..], text[1..])
  }

  predicate Special(c: char) {
    c == '\\' || c == '%' || c == '_'
  }

  /** The replacer of AdminSearchPattern: one pass, three characters escaped. */
  function Escape(search: string): (r: string) {
    if search == "" then ""
    else (if Special(search[0]) then ['\\', search[0]] else [search[0]]) + Escape(search[1..])
  }

  function SearchPattern(search: string): (r: string) {
    "%" + Escape(search) + "%"
  }

  function Literals(search: string): (r: seq<Token>) {
    seq(|search|, i requires 0 <= i < |search| => Literal(search[i]))
  }

  lemma ReadsPlain(c: char, rest: string)
    requires c != '\\' && Tokens(rest).Some?
    ensures Tokens([c] + rest) == Some([Unescaped(c)] + Tokens(rest).value)
  {
    assert ([c] + rest)[1..] == rest;
  }

  lemma ReadsEscaped(c: char, rest: string)
    requires Tokens(rest).Some?
    ensures Tokens(['\\', c] + rest) == Some([Literal(c)] + Tokens(rest).value)
  {
    assert (['\\', c] + rest)[2..] == rest;
  }

  lemma EscapeStep(search: string, rest: string)
    requires search != ""
    ensures Escape(search) + rest
         == (if Special(search[0]) then ['\\', search[0]] else [search[0]]) + (Escape(search[1..]) + rest)
  {
  }

  lemma LiteralsStep(search: string, rest: seq<Token>)
    requires search != ""
    ensures Literals(search) + rest == [Literal(search[0])] + (Literals(search[1..]) + rest)
  {
  }

  /** Escaping leaves nothing special: the pattern reads back as the search itself. */
  lemma {:induction false} EscapedIsLiteral(search: string, rest: string)
    requires Tokens(rest).Some?
    ensures Tokens(Escape(search) + rest) == Some(Literals(search) + Tokens(rest).value)
  {
    if search == "" {
      assert Escape(search) + rest == rest;
      assert Literals(search) + Tokens(rest).value == Tokens(rest).value;
    } else {
      EscapedIsLiteral(search[1..], rest);
      EscapeStep(search, rest);
      LiteralsStep(search, Tokens(rest).value);
      if Special(search[0]) {
        ReadsEscaped(search[0], Escape(search[1..]) + rest);
      } else {
        ReadsPlain(search[0], Escape(search[1..]) + rest);
      }
    }
  }

  predicate OccursAt(text: string, part: string, i: int) {
    0 <= i <= |text| - |part| && text[i..i + |part|] == part
  }

  ghost predicate Contains(text: string, part: string) {
    exists i :: OccursAt(text, part, i)
  }

  lemma {:induction false} EverythingMatchesAny(text: string)
    ensures Matches([AnySequence], text)
  {
    if text != "" {
      EverythingMatchesAny(text[1..]);
    }
  }

  lemma {:induction false} LiteralsMatchPrefix(part: string, text: string)
    ensures Matches(Literals(part) + [AnySequence], text) <==> OccursAt(text, part, 0)
  {
    var tokens := Literals(part) + [AnySequence];
    if part == "" {
      assert tokens == [AnySequence];
      EverythingMatchesAny(text);
    } else {
      assert tokens[1..] == Literals(part[1..]) + [AnySequence];
      if text != "" {
        LiteralsMatchPrefix(part[1..], text[1..]);
        if |part| <= |text| {
          assert text[0..|part|] == [text[0]] + text[1..][0..|part| - 1];
          assert part == [part[0]] + part[1..];
        }
      }
    }
  }

  lemma OccursLater(text: string, part: string, i: int)
    requires text != "" && i > 0
    ensures OccursAt(text, part, i) <==> OccursAt(text[1..], part, i - 1)
  {
    if i <= |text| - |part| {
      assert text[i..i + |part|] == text[1..][i - 1..i - 1 + |part|];
    }
  }

  lemma {:induction false} WrappedLiteralsMatchContains(part: string, text: string)
    ensures Matches([AnySequence] + (Literals(part) + [AnySequence]), text) <==> Contains(text, part)
  {
    var rest := Literals(part) + [AnySequence];
    assert ([AnySequence] + rest)[1..] == rest;
    LiteralsMatchPrefix(part, text);
    if text != "" {
      WrappedLiteralsMatchContains(part, text[1..]);
      forall i | i > 0
        ensures OccursAt(text, part, i) <==> OccursAt(text[1..], part, i - 1)
      {
        OccursLater(text, part, i);
      }
      if Contains(text[1..], part) {
        var i :| OccursAt(text[1..], part, i);
        assert OccursAt(text, part, i + 1);
      }
    }
  }

  /** The pattern of a search matches a text iff the search occurs in it literally. */
  lemma PatternMeansSubstring(search: string, text: string)
    ensures Tokens(SearchPattern(search)).Some?
    ensures Matches(Tokens(SearchPattern(search)).value, text) <==> Contains(text, search)
  {
    ReadsPlain('%', "");
    assert ['%'] + "" == "%";
    EscapedIsLiteral(search, "%");
    assert SearchPattern(search) == ['%'] + (Escape(search) + "%");
    ReadsPlain('%', Escape(search) + "%");
    assert [AnySequence] + [] == [AnySequence];
    WrappedLiteralsMatchContains(search, text);
  }

  /** Case folding, character by character; the pattern characters fold to themselves alone. */
  ghost predicate Folding(fold: char -> char) {
    forall c :: (fold(c) == '\\' <==> c == '\\') && (fold(c) == '%' <==> c == '%') && (fold(c) == '_' <==> c == '_')
  }

  function Fold(fold: char -> char, text: string): (r: string) {
    seq(|text|, i requires 0 <= i < |text| => fold(text[i]))
  }

  lemma FoldConcat(fold: char -> char, a: string, b: string)
    ensures Fold(fold, a + b) == Fold(fold, a) + Fold(fold, b)
  {
  }

  /** Folding the escaped search is escaping the folded one. */
  lemma {:induction false} FoldEscape(fold: char -> char, search: string)
    requires Folding(fold)
    ensures Fold(fold, Escape(search)) == Escape(Fold(fold, search))
  {
    var folded := Fold(fold, search);
    if search == "" {
      assert folded == "";
    } else {
      FoldEscape(fold, search[1..]);
      var c := search[0];
      var head := if Special(c) then ['\\', c] else [c];
      FoldConcat(fold, head, Escape(search[1..]));
      assert folded[0] == fold(c) && folded[1..] == Fold(fold, search[1..]);
      assert fold('\\') == '\\';
      assert Fold(fold, head) == if Special(fold(c)) then ['\\', fold(c)] else [fold(c)];
    }
  }

  /** The columns of a listed account the filters look at. */
  datatype Row = Row(
    id: int, createdAt: int, email: Option<string>, username: Option<string>, displayName: Option<string>,
    isAdmin: bool, isGuest: bool, emailVerifiedAt: Option<int>)

  datatype SortKey = ById | ByColumn(column: Column) | ByCreation

  datatype Query = Query(
    search: string, admin: string, guest: string, confirmed: string,
    sort: SortKey, descending: bool, page: int, size: int)

  const YES := "yes"
  const NO := "no"

  datatype Column = Email | Username | DisplayName

  datatype Flag = IsAdmin | IsGuest

  /** The SQL text of one condition; `n` is the number of the `$n` placeholder. */
  datatype Condition =
    | ILikeAny(columns: seq<Column>, n: nat)
    | FlagIs(flag: Flag, n: nat)
    | Verified(isNull: bool)

  datatype Argument = Text(text: string) | Boolean(value: bool) | Number(number: int)

  /** SQL truth values. */
  datatype Truth = True | False | Null

  function Value(row: Row, column: Column): (r: Option<string>) {
    match column
    case Email => row.email
    case Username => row.username
    case DisplayName => row.displayName
  }

  function Or(a: Truth, b: Truth): (r: Truth) {
    if a == True || b == True then True else if a == Null || b == Null then Null else False
  }

  function ILike(fold: char -> char, value: Option<string>, pattern: string): (r: Option<Truth>) {
    if value.None? then Some(Null)
    else match Tokens(Fold(fold, pattern))
      case Some(tokens) => Some(if Matches(tokens, Fold(fold, value.value)) then True else False)
      case None => None
  }

  function AnyILike(fold: char -> char, row: Row, columns: seq<Column>, pattern: string): (r: Option<Truth>) {
    if columns == [] then Some(False)
    else match (ILike(fold, Value(row, columns[0]), pattern), AnyILike(fold, row, columns[1..], pattern))
      case (Some(a), Some(b)) => Some(Or(a, b))
      case _ => None
  }

  /** None is a run-time error: a missing argument, one of the wrong type, a bad pattern. */
  function Evaluate(fold: char -> char, row: Row, condition: Condition, arguments: seq<Argument>): (r: Option<Truth>) {
    match condition
    case ILikeAny(columns, n) =>
      if 1 <= n <= |arguments| && arguments[n - 1].Text?
      then AnyILike(fold, row, columns, arguments[n - 1].text)
      else None
    case FlagIs(flag, n) =>
      if 1 <= n <= |arguments| && arguments[n - 1].Boolean?
      then Some(if (if flag.IsAdmin? then row.isAdmin else row.isGuest) == arguments[n - 1].value then True else False)
      else None
    case Verified(isNull) => Some(if row.emailVerifiedAt.None? == isNull then True else False)
  }

  /** A WHERE clause keeps a row when every condition is true, not false and not NULL. */
  ghost predicate Keeps(fold: char -> char, row: Row, conditions: seq<Condition>, arguments: seq<Argument>) {
    forall i :: 0 <= i < |conditions| ==> Evaluate(fold, row, conditions[i], arguments) == Some(True)
  }

  ghost predicate Safe(fold: char -> char, row: Row, conditions: seq<Condition>, arguments: seq<Argument>) {
    forall i :: 0 <= i < |conditions| ==> Evaluate(fold, row, conditions[i], arguments).Some?
  }

  /** What the i-th filter of the list asks for. */
  ghost predicate Filter(fold: char -> char, row: Row, query: Query, i: nat) {
    if i == 0 then query.search != "" ==> exists column :: Shows(fold, row, column, query.search)
    else if i == 1 then query.admin == YES ==> row.isAdmin
    else if i == 2 then query.admin == NO ==> !row.isAdmin
    else if i == 3 then query.guest == YES ==> row.isGuest
    else if i == 4 then query.guest == NO ==> !row.isGuest
    else if i == 5 then query.confirmed == YES ==> row.emailVerifiedAt.Some?
    else if i == 6 then query.confirmed == NO ==> row.emailVerifiedAt.None?
    else true
  }

  /** The rows the filters describe. */
  ghost predicate Wanted(fold: char -> char, row: Row, query: Query) {
    && (query.search != "" ==> exists column :: Shows(fold, row, column, query.search))
    && (query.admin == YES ==> row.isAdmin) && (query.admin == NO ==> !row.isAdmin)
    && (query.guest == YES ==> row.isGuest) && (query.guest == NO ==> !row.isGuest)
    && (query.confirmed == YES ==> row.emailVerifiedAt.Some?)
    && (query.confirmed == NO ==> row.emailVerifiedAt.None?)
  }

  ghost predicate Shows(fold: char -> char, row: Row, column: Column, search: string) {
    Value(row, column).Some? && Contains(Fold(fold, Value(row, column).value), Fold(fold, search))
  }

  lemma ILikeMeansShows(fold: char -> char, row: Row, column: Column, search: string)
    requires Folding(fold)
    ensures var r := ILike(fold, Value(row, column), SearchPattern(search));
            r.Some? && (r.value == True <==> Shows(fold, row, column, search))
  {
    FoldEscape(fold, search);
    assert Fold(fold, SearchPattern(search)) == SearchPattern(Fold(fold, search)) by {
      assert fold('%') == '%';
    }
    if Value(row, column).Some? {
      PatternMeansSubstring(Fold(fold, search), Fold(fold, Value(row, column).value));
    }
  }

  lemma {:induction false} AnyILikeMeansShows(fold: char -> char, row: Row, columns: seq<Column>, search: string)
    requires Folding(fold)
    ensures var r := AnyILike(fold, row, columns, SearchPattern(search));
            r.Some? && (r.value == True <==> exists i :: 0 <= i < |columns| && Shows(fold, row, columns[i], search))
  {
    if columns != [] {
      ILikeMeansShows(fold, row, columns[0], search);
      AnyILikeMeansShows(fold, row, columns[1..], search);
      if exists i :: 0 <= i < |columns[1..]| && Shows(fold, row, columns[1..][i], search) {
        var i :| 0 <= i < |columns[1..]| && Shows(fold, row, columns[1..][i], search);
        assert Shows(fold, row, columns[i + 1], search);
      }
      if exists i :: 0 <= i < |columns| && Shows(fold, row, columns[i], search) {
        var i :| 0 <= i < |columns| && Shows(fold, row, columns[i], search);
        if i > 0 {
          assert Shows(fold, row, columns[1..][i - 1], search);
        }
      }
    }
  }

  ghost predicate ExpressAt(
    fold: char -> char, row: Row, conditions: seq<Condition>, arguments: seq<Argument>, query: Query, k: nat)
  {
    && Safe(fold, row, conditions, arguments)
    && (Keeps(fold, row, conditions, arguments) <==> forall i :: 0 <= i < k ==> Filter(fold, row, query, i))
  }

  /** The conditions say what the first `k` filters ask, also with more arguments behind. */
  ghost predicate Express(conditions: seq<Condition>, arguments: seq<Argument>, query: Query, k: nat) {
    forall fold: char -> char, row: Row, more: seq<Argument> ::
      Folding(fold) ==> ExpressAt(fold, row, conditions, arguments + more, query, k)
  }

  ghost predicate SaysAt(
    fold: char -> char, row: Row, condition: Condition, arguments: seq<Argument>, query: Query, k: nat)
  {
    var r := Evaluate(fold, row, condition, arguments);
    r.Some? && (r.value == True <==> Filter(fold, row, query, k))
  }

  ghost predicate Says(condition: Condition, arguments: seq<Argument>, query: Query, k: nat) {
    forall fold: char -> char, row: Row, more: seq<Argument> ::
      Folding(fold) ==> SaysAt(fold, row, condition, arguments + more, query, k)
  }

  lemma AddCondition(
    conditions: seq<Condition>, arguments: seq<Argument>, query: Query, k: nat,
    condition: Condition, added: seq<Argument>)
    requires Express(conditions, arguments, query, k)
    requires Says(condition, arguments + added, query, k)
    ensures Express(conditions + [condition], arguments + added, query, k + 1)
  {
    var longer, known, next := conditions + [condition], arguments + added, k + 1;
    forall fold: char -> char, row: Row, more: seq<Argument> | Folding(fold)
      ensures ExpressAt(fold, row, longer, known + more, query, next)
    {
      var all := known + more;
      assert all == arguments + (added + more);
      assert ExpressAt(fold, row, conditions, arguments + (added + more), query, k);
      assert SaysAt(fold, row, condition, known + more, query, k);
      assert Keeps(fold, row, longer, all) <==>
             Keeps(fold, row, conditions, all) && Evaluate(fold, row, condition, all) == Some(True) by {
        assert forall i :: 0 <= i < |conditions| ==> longer[i] == conditions[i];
        assert longer[|conditions|] == condition;
      }
    }
  }

  lemma SearchConditionSays(query: Query)
    requires query.search != ""
    ensures Says(ILikeAny([Email, Username, DisplayName], 1), [Text(SearchPattern(query.search))], query, 0)
  {
    var columns := [Email, Username, DisplayName];
    var arguments, condition := [Text(SearchPattern(query.search))], ILikeAny(columns, 1);
    forall fold: char -> char, row: Row, more: seq<Argument> | Folding(fold)
      ensures SaysAt(fold, row, condition, arguments + more, query, 0)
    {
      AnyILikeMeansShows(fold, row, columns, query.search);
      assert (arguments + more)[0] == arguments[0];
      if exists column :: Shows(fold, row, column, query.search) {
        var column :| Shows(fold, row, column, query.search);
        var i := match column case Email => 0 case Username => 1 case DisplayName => 2;
        assert Shows(fold, row, columns[i], query.search);
      }
    }
  }

  lemma FlagConditionSays(query: Query, flag: Flag, value: bool, known: seq<Argument>)
    requires (if flag.IsAdmin? then query.admin else query.guest) == if value then YES else NO
    ensures Says(FlagIs(flag, |known| + 1), known + [Boolean(value)], query,
                 (if flag.IsAdmin? then 1 else 3) + if value then 0 else 1)
  {
    var condition, arguments := FlagIs(flag, |known| + 1), known + [Boolean(value)];
    var k := (if flag.IsAdmin? then 1 else 3) + if value then 0 else 1;
    forall fold: char -> char, row: Row, more: seq<Argument> | Folding(fold)
      ensures SaysAt(fold, row, condition, arguments + more, query, k)
    {
      assert (arguments + more)[|known|] == Boolean(value);
    }
  }

  /** A filter that is not set asks for nothing. */
  lemma SkipFilter(conditions: seq<Condition>, arguments: seq<Argument>, query: Query, k: nat)
    requires Express(conditions, arguments, query, k)
    requires forall fold: char -> char, row: Row :: Filter(fold, row, query, k)
    ensures Express(conditions, arguments, query, k + 1)
  {
    var next := k + 1;
    forall fold: char -> char, row: Row, more: seq<Argument> | Folding(fold)
      ensures ExpressAt(fold, row, conditions, arguments + more, query, next)
    {
      assert ExpressAt(fold, row, conditions, arguments + more, query, k);
      assert Filter(fold, row, query, k);
    }
  }

  /**
   The generated conditions and arguments, appended in the order of the filters. For
   every folding and every row the WHERE clause runs without error and keeps the row
   exactly when the filters want it, whatever arguments are appended later.
   */
  method Conditions(query: Query) returns (conditions: seq<Condition>, arguments: seq<Argument>)
    ensures Express(conditions, arguments, query, 7)
  {
    conditions, arguments := [], [];
    if query.search != "" {
      SearchConditionSays(query);
      assert arguments + [Text(SearchPattern(query.search))] == [Text(SearchPattern(query.search))];
      AddCondition(conditions, arguments, query, 0, ILikeAny([Email, Username, DisplayName], 1),
                   [Text(SearchPattern(query.search))]);
      conditions := conditions + [ILikeAny([Email, Username, DisplayName], |arguments| + 1)];
      arguments := arguments + [Text(SearchPattern(query.search))];
    } else {
      SkipFilter(conditions, arguments, query, 0);
    }
    conditions, arguments := FlagConditions(query, query.admin, IsAdmin, conditions, arguments);
    conditions, arguments := FlagConditions(query, query.guest, IsGuest, conditions, arguments);
    if query.confirmed == YES {
      AddCondition(conditions, arguments, query, 5, Verified(false), []);
      assert arguments + [] == arguments;
      conditions := conditions + [Verified(false)];
    } else {
      SkipFilter(conditions, arguments, query, 5);
    }
    if query.confirmed == NO {
      AddCondition(conditions, arguments, query, 6, Verified(true), []);
      assert arguments + [] == arguments;
      conditions := conditions + [Verified(true)];
    } else {
      SkipFilter(conditions, arguments, query, 6);
    }
  }

  /** The two branches of one yes/no filter over a column. */
  method FlagConditions(query: Query, wanted: string, flag: Flag, before: seq<Condition>, known: seq<Argument>)
    returns (conditions: seq<Condition>, arguments: seq<Argument>)
    requires wanted == if flag.IsAdmin? then query.admin else query.guest
    requires Express(before, known, query, if flag.IsAdmin? then 1 else 3)
    ensures Express(conditions, arguments, query, if flag.IsAdmin? then 3 else 5)
  {
    ghost var k := if flag.IsAdmin? then 1 else 3;
    conditions, arguments := before, known;
    if wanted == YES {
      FlagConditionSays(query, flag, true, arguments);
      AddCondition(conditions, arguments, query, k, FlagIs(flag, |arguments| + 1), [Boolean(true)]);
      conditions := conditions + [FlagIs(flag, |arguments| + 1)];
      arguments := arguments + [Boolean(true)];
    } else {
      SkipFilter(conditions, arguments, query, k);
    }
    if wanted == NO {
      FlagConditionSays(query, flag, false, arguments);
      AddCondition(conditions, arguments, query, k + 1, FlagIs(flag, |arguments| + 1), [Boolean(false)]);
      conditions := conditions + [FlagIs(flag, |arguments| + 1)];
      arguments := arguments + [Boolean(false)];
    } else {
      SkipFilter(conditions, arguments, query, k + 1);
    }
  }

  /**
   The whole list request: LIMIT and OFFSET take the two numbers after the filters'
   arguments, and the filters still mean the same with these arguments present.
   */
  method ListQuery(query: Query) returns (conditions: seq<Condition>, arguments: seq<Argument>, limit: nat, offset: nat)
    ensures forall fold: char -> char, row: Row :: Folding(fold) ==>
      && Safe(fold, row, conditions, arguments)
      && (Keeps(fold, row, conditions, arguments) <==> Wanted(fold, row, query))
    ensures 1 <= limit <= |arguments| && arguments[limit - 1] == Number(query.size)
    ensures 1 <= offset <= |arguments| && arguments[offset - 1] == Number(Offset(query.page, query.size))
  {
    conditions, arguments := Conditions(query);
    limit, offset := |arguments| + 1, |arguments| + 2;
    ghost var more := [Number(query.size), Number(Offset(query.page, query.size))];
    forall fold: char -> char, row: Row | Folding(fold)
      ensures Safe(fold, row, conditions, arguments + more)
      ensures Keeps(fold, row, conditions, arguments + more) <==> Wanted(fold, row, query)
    {
      assert ExpressAt(fold, row, conditions, arguments + more, query, 7);
      EveryFilterIsWanted(fold, row, query);
    }
    arguments := arguments + [Number(query.size), Number(Offset(query.page, query.size))];
  }

  lemma EveryFilterIsWanted(fold: char -> char, row: Row, query: Query)
    ensures (forall i :: 0 <= i < 7 ==> Filter(fold, row, query, i)) <==> Wanted(fold, row, query)
  {
    if forall i :: 0 <= i < 7 ==> Filter(fold, row, query, i) {
      assert Filter(fold, row, query, 0) && Filter(fold, row, query, 1) && Filter(fold, row, query, 2);
      assert Filter(fold, row, query, 3) && Filter(fold, row, query, 4) && Filter(fold, row, query, 5);
      assert Filter(fold, row, query, 6);
    }
  }

  const DEFAULT_SIZE := 20
  const MAX_SIZE := 100
  const MAX_PAGE := 1_000_000

  function Min(a: int, b: int): (r: int) { if a < b then a else b }

  function Max(a: int, b: int): (r: int) { if a < b then b else a }

  /** Normalize for the two numbers of a request. */
  function ClampPage(page: int): (r: int)
    ensures 1 <= r <= MAX_PAGE
  {
    Min(Max(page, 1), MAX_PAGE)
  }

  function ClampSize(size: int): (r: int)
    ensures 1 <= r <= MAX_SIZE
  {
    Min(if size < 1 then DEFAULT_SIZE else size, MAX_SIZE)
  }

  function Offset(page: int, size: int): (r: int) {
    if page < 1 then 0 else (Min(page, MAX_PAGE) - 1) * size
  }

  function PageCount(total: int, size: int): (r: int) {
    if total <= 0 || size <= 0 then 0 else (total + size - 1) / size
  }

  /** LIMIT and OFFSET of a sorted list. */
  function Slice(rows: seq<Row>, limit: nat, offset: nat): (r: seq<Row>) {
    rows[Min(offset, |rows|)..Min(offset + limit, |rows|)]
  }

  /** What a request for a page and a size shows of the filtered, sorted accounts. */
  function Shown(rows: seq<Row>, page: int, size: int): (shown: seq<Row>)
    ensures |shown| <= MAX_SIZE
  {
    OffsetBounds(ClampPage(page), ClampSize(size));
    Slice(rows, ClampSize(size), Offset(ClampPage(page), ClampSize(size)))
  }

  lemma OffsetBounds(page: int, size: int)
    requires 1 <= page && 1 <= size
    ensures 0 <= Offset(page, size)
  {
  }

  /** The first n pages, one behind the other. */
  function Browsed(rows: seq<Row>, n: nat, size: int): (r: seq<Row>) {
    if n == 0 then [] else Browsed(rows, n - 1, size) + Shown(rows, n, size)
  }

  lemma ShownIsNext(rows: seq<Row>, n: nat, size: int)
    requires 1 <= n <= MAX_PAGE
    ensures 0 <= (n - 1) * ClampSize(size) <= n * ClampSize(size)
    ensures rows[..Min(n * ClampSize(size), |rows|)]
         == rows[..Min((n - 1) * ClampSize(size), |rows|)] + Shown(rows, n, size)
  {
    var k := ClampSize(size);
    OffsetBounds(n, k);
    assert n * k == (n - 1) * k + k;
    var a, b := Min((n - 1) * k, |rows|), Min(n * k, |rows|);
    assert Shown(rows, n, size) == rows[a..b];
  }

  lemma {:induction false} BrowsedIsPrefix(rows: seq<Row>, n: nat, size: int)
    requires n <= MAX_PAGE
    ensures 0 <= n * ClampSize(size)
    ensures Browsed(rows, n, size) == rows[..Min(n * ClampSize(size), |rows|)]
  {
    var k := ClampSize(size);
    if n > 0 {
      BrowsedIsPrefix(rows, n - 1, size);
      ShownIsNext(rows, n, size);
    }
  }

  lemma CeilingBounds(total: nat, size: int)
    requires size > 0
    ensures PageCount(total, size) >= 0
    ensures forall n: nat :: total <= n * size <==> PageCount(total, size) <= n
  {
    var c := PageCount(total, size);
    if total > 0 {
      assert total + size - 1 == c * size + (total + size - 1) % size;
    }
    forall n: nat
      ensures total <= n * size <==> c <= n
    {
      if c <= n {
        assert n * size == c * size + (n - c) * size;
        MulNonNegative(n - c, size);
      } else {
        assert (c - 1) * size == n * size + (c - 1 - n) * size;
        MulNonNegative(c - 1 - n, size);
        assert c * size == (c - 1) * size + size;
      }
    }
  }

  lemma MulNonNegative(a: nat, b: nat)
    ensures a * b >= 0
  {
  }

  /**
   Paging through the announced number of pages shows every account once and in
   order, exactly when that number is at most a million: later pages are clamped.
   */
  lemma PagesShowEverything(rows: seq<Row>, size: int)
    ensures var count := PageCount(|rows|, ClampSize(size));
            count <= MAX_PAGE ==> Browsed(rows, count, size) == rows
  {
    var count := PageCount(|rows|, ClampSize(size));
    CeilingBounds(|rows|, ClampSize(size));
    if count <= MAX_PAGE {
      BrowsedIsPrefix(rows, count, size);
    }
  }

  lemma OnPage(rows: seq<Row>, page: int, size: int, i: nat)
    requires i < |rows|
    requires forall j, k :: 0 <= j < k < |rows| ==> rows[j] != rows[k]
    ensures rows[i] in Shown(rows, page, size)
       <==> (ClampPage(page) - 1) * ClampSize(size) <= i < (ClampPage(page) - 1) * ClampSize(size) + ClampSize(size)
  {
    var k := ClampSize(size);
    OffsetBounds(ClampPage(page), k);
    var o := (ClampPage(page) - 1) * k;
    var shown := Shown(rows, page, size);
    if rows[i] in shown {
      var j :| 0 <= j < |shown| && shown[j] == rows[i];
      assert shown[j] == rows[o + j];
    }
    if o <= i < o + k {
      assert shown[i - o] == rows[i];
    }
  }

  /** Row i lies on page i / k + 1, the only page whose span holds it. */
  lemma PageOfRow(i: nat, k: int)
    requires k > 0
    ensures i / k * k <= i < i / k * k + k
    ensures i / k < MAX_PAGE <==> i < MAX_PAGE * k
  {
    assert i == i / k * k + i % k;
    if i / k < MAX_PAGE {
      assert MAX_PAGE * k == i / k * k + k + (MAX_PAGE - i / k - 1) * k;
      MulNonNegative(MAX_PAGE - i / k - 1, k);
    } else {
      assert i / k * k == MAX_PAGE * k + (i / k - MAX_PAGE) * k;
      MulNonNegative(i / k - MAX_PAGE, k);
    }
  }

  lemma SpanBelow(page: int, k: int, i: nat)
    requires 1 <= page <= MAX_PAGE && k > 0 && i < (page - 1) * k + k
    ensures i < MAX_PAGE * k
  {
    assert MAX_PAGE * k == (page - 1) * k + k + (MAX_PAGE - page) * k;
    MulNonNegative(MAX_PAGE - page, k);
  }

  /** The account at position i is on some page iff it is before the last reachable row. */
  lemma ReachableIffEarly(rows: seq<Row>, size: int, i: nat)
    requires i < |rows|
    requires forall j, k :: 0 <= j < k < |rows| ==> rows[j] != rows[k]
    ensures (exists page :: rows[i] in Shown(rows, page, size)) <==> i < MAX_PAGE * ClampSize(size)
  {
    var k := ClampSize(size);
    PageOfRow(i, k);
    if i < MAX_PAGE * k {
      OnPage(rows, i / k + 1, size, i);
    }
    forall page | rows[i] in Shown(rows, page, size)
      ensures i < MAX_PAGE * k
    {
      OnPage(rows, page, size, i);
      SpanBelow(ClampPage(page), k, i);
    }
  }

  /** The collation: texts that compare equal need not be equal. */
  type Collation = string -> int

  /** ORDER BY of adminUserOrderBy: whether `a` is listed before `b`. */
  predicate Before(collate: Collation, query: Query, a: Row, b: Row) {
    match query.sort
    case ById => if query.descending then b.id < a.id else a.id < b.id
    case ByColumn(column) =>
      (match (Value(a, column), Value(b, column))
       case (Some(x), Some(y)) =>
         if collate(x) != collate(y)
         then (if query.descending then collate(y) < collate(x) else collate(x) < collate(y))
         else a.id < b.id
       case (None, None) => a.id < b.id
       case (x, _) => x.Some?)
    case ByCreation =>
      if query.descending then b.createdAt < a.createdAt || (b.createdAt == a.createdAt && b.id < a.id)
      else a.createdAt < b.createdAt || (a.createdAt == b.createdAt && a.id < b.id)
  }

  ghost predicate DistinctIds(table: set<Row>) {
    forall a, b :: a in table && b in table && a.id == b.id ==> a == b
  }

  /** A correct answer of the database: the wanted accounts, in order. */
  ghost predicate Listing(fold: char -> char, collate: Collation, table: set<Row>, query: Query, rows: seq<Row>) {
    && (forall row :: row in rows <==> row in table && Wanted(fold, row, query))
    && (forall i, j :: 0 <= i < j < |rows| ==> Before(collate, query, rows[i], rows[j]))
  }

  /** Two distinct accounts are listed in one order, never in both and never in neither. */
  lemma OrderIsTotal(collate: Collation, query: Query, a: Row, b: Row)
    requires a.id != b.id
    ensures Before(collate, query, a, b) <==> !Before(collate, query, b, a)
  {
  }

  lemma {:induction false} SameFirst(
    collate: Collation, query: Query, table: set<Row>, first: seq<Row>, second: seq<Row>)
    requires DistinctIds(table)
    requires forall row :: row in first <==> row in second
    requires forall row :: row in first ==> row in table
    requires forall i, j :: 0 <= i < j < |first| ==> Before(collate, query, first[i], first[j])
    requires forall i, j :: 0 <= i < j < |second| ==> Before(collate, query, second[i], second[j])
    ensures first == second
  {
    if first != [] {
      assert first[0] in second && second != [] && second[0] in first;
      Irreflexive(collate, query);
      if first[0] != second[0] {
        OrderIsTotal(collate, query, first[0], second[0]);
        assert false;
      }
      forall row
        ensures row in first[1..] <==> row in second[1..]
      {
        Rest(collate, query, first, row);
        Rest(collate, query, second, row);
      }
      SameFirst(collate, query, table, first[1..], second[1..]);
      assert first == [first[0]] + first[1..] && second == [second[0]] + second[1..];
    } else if second != [] {
      var row := SomeRow(second);
      assert false;
    }
  }

  lemma SomeRow(rows: seq<Row>) returns (row: Row)
    requires rows != []
    ensures row in rows
  {
    row := rows[0];
  }

  lemma Irreflexive(collate: Collation, query: Query)
    ensures forall row :: !Before(collate, query, row, row)
  {
  }

  lemma Rest(collate: Collation, query: Query, rows: seq<Row>, row: Row)
    requires rows != []
    requires forall i, j :: 0 <= i < j < |rows| ==> Before(collate, query, rows[i], rows[j])
    ensures row in rows[1..] <==> row in rows && row != rows[0]
  {
    Irreflexive(collate, query);
    if row in rows && row != rows[0] {
      var i :| 0 <= i < |rows| && rows[i] == row;
      assert rows[1..][i - 1] == row;
    }
  }

  /**
   The id tie-break leaves the database one answer: with unique ids every page of a
   request is determined by the table, so no account moves between pages by chance.
   */
  lemma ListingIsUnique(
    fold: char -> char, collate: Collation, table: set<Row>, query: Query,
    first: seq<Row>, second: seq<Row>, page: int, size: int)
    requires DistinctIds(table)
    requires Listing(fold, collate, table, query, first) && Listing(fold, collate, table, query, second)
    ensures first == second && Shown(first, page, size) == Shown(second, page, size)
  {
    SameFirst(collate, query, table, first, second);
  }
}
