/**
 The stored Argon2id hash: its printer, its parser and its bounds. Argon2 itself is a
 parameter that returns as many bytes as the configuration asks for.
 */
module PasswordHash {
  import opened Wrappers
  import opened Text
  import Base64

  /** The two lengths are 32-bit numbers, so the parser keeps them modulo 2^32. */
  datatype Config = Config(memory: nat, time: nat, threads: nat, saltLength: nat, keyLength: nat)

  datatype Hash = Hash(config: Config, salt: seq<Base64.Byte>, key: seq<Base64.Byte>)

  const MAX_MEMORY := 0x4000_0000
  const MAX_TIME := 10
  const MAX_BYTES := 0x10_0000
  const MAX_THREADS := 255
  const VERSION := 19
  const TWO_TO_THE_32 := 0x1_0000_0000
  const DEFAULT := Config(64 * 1024, 3, 4, 16, 32)

  predicate ValidConfig(c: Config) {
    && !(c.memory == 0 || c.memory > MAX_MEMORY || c.time == 0 || c.time > MAX_TIME || c.threads == 0)
    && !(c.memory < c.threads * 8 || c.saltLength < 8 || c.saltLength > MAX_BYTES || c.keyLength == 0
         || c.keyLength > MAX_BYTES)
  }

  /** A missing configuration selects the default, a partial one is refused. */
  function Normalize(config: Config): (r: Option<Config>) {
    var chosen := if config == Config(0, 0, 0, 0, 0) then DEFAULT else config;
    if ValidConfig(chosen) then Some(chosen) else None
  }

  function Encode(c: Config, salt: seq<Base64.Byte>, key: seq<Base64.Byte>): (r: string) {
    "$argon2id$v=" + Decimal(VERSION) + "$m=" + Decimal(c.memory) + ",t=" + Decimal(c.time) + ",p=" + Decimal(c.threads)
    + "$" + Base64.Encode(salt) + "$" + Base64.Encode(key)
  }

  function ParseParameter(raw: string, name: char): (r: Option<nat>) {
    if [name, '='] <= raw then ParseUint(raw[2..]) else None
  }

  function ParseCosts(raw: string): (r: Option<(nat, nat, nat)>) {
    var parameters := Split(raw, ',');
    if |parameters| != 3 then None
    else match (ParseParameter(parameters[0], 'm'), ParseParameter(parameters[1], 't'),
                ParseParameter(parameters[2], 'p'))
      case (Some(memory), Some(time), Some(threads)) =>
        if threads > MAX_THREADS then None else Some((memory, time, threads))
      case _ => None
  }

  /** Six parts, the algorithm and its version. */
  predicate HasHeader(parts: seq<string>) {
    && |parts| == 6 && parts[0] == "" && parts[1] == "argon2id"
    && ParseParameter(parts[2], 'v') == Some(VERSION)
  }

  function Parse(encoded: string): (r: Option<Hash>) {
    var parts := Split(encoded, '$');
    if !HasHeader(parts) then None
    else match (ParseCosts(parts[3]), Base64.Decode(parts[4]), Base64.Decode(parts[5]))
      case (Some(costs), Some(salt), Some(key)) =>
        var config := Config(costs.0, costs.1, costs.2, |salt| % TWO_TO_THE_32, |key| % TWO_TO_THE_32);
        if ValidConfig(config) then Some(Hash(config, salt, key)) else None
      case _ => None
  }

  /** The six written pieces of a stored hash. */
  datatype Pieces = Pieces(version: string, memory: string, time: string, threads: string, salt: string, key: string)

  function Costs(p: Pieces): (r: seq<string>) {
    ["m=" + p.memory, "t=" + p.time, "p=" + p.threads]
  }

  function Parts(p: Pieces): (r: seq<string>) {
    ["", "argon2id", "v=" + p.version, Join(Costs(p), ','), p.salt, p.key]
  }

  /** The text with these pieces. */
  function Layout(p: Pieces): (r: string) {
    Join(Parts(p), '$')
  }

  /** What the pieces stand for. */
  ghost predicate Denotes(p: Pieces, h: Hash) {
    && ParseUint(p.version) == Some(VERSION)
    && ParseUint(p.memory) == Some(h.config.memory)
    && ParseUint(p.time) == Some(h.config.time)
    && ParseUint(p.threads) == Some(h.config.threads) && h.config.threads <= MAX_THREADS
    && Base64.Decode(p.salt) == Some(h.salt) && h.config.saltLength == |h.salt| % TWO_TO_THE_32
    && Base64.Decode(p.key) == Some(h.key) && h.config.keyLength == |h.key| % TWO_TO_THE_32
    && ValidConfig(h.config)
  }

  /** No piece of a readable hash holds a separator. */
  predicate Clean(p: Pieces) {
    && AllDigits(p.version) && AllDigits(p.memory) && AllDigits(p.time) && AllDigits(p.threads)
    && '$' !in p.salt && '$' !in p.key
  }

  lemma DenotingIsClean(p: Pieces, h: Hash)
    requires Denotes(p, h)
    ensures Clean(p)
  {
    Base64.DecodableCharacters(p.salt);
    Base64.DecodableCharacters(p.key);
  }

  lemma CostsAreFree(p: Pieces)
    requires Clean(p)
    ensures Free(Costs(p), ',') && '$' !in Join(Costs(p), ',')
  {
    JoinThree("m=" + p.memory, "t=" + p.time, "p=" + p.threads, ',');
  }

  lemma SplitLayout(p: Pieces)
    requires Clean(p)
    ensures Split(Layout(p), '$') == Parts(p)
    ensures Split(Parts(p)[3], ',') == Costs(p)
  {
    CostsAreFree(p);
    SplitJoin(Costs(p), ',');
    SplitJoin(Parts(p), '$');
  }

  lemma ParameterAfterName(name: char, text: string)
    ensures ParseParameter([name, '='] + text, name) == ParseUint(text)
  {
    assert ([name, '='] + text)[2..] == text;
  }

  lemma ParseCostsOfPieces(p: Pieces, c: Config)
    requires Clean(p)
    requires ParseUint(p.memory) == Some(c.memory) && ParseUint(p.time) == Some(c.time)
    requires ParseUint(p.threads) == Some(c.threads) && c.threads <= MAX_THREADS
    ensures ParseCosts(Join(Costs(p), ',')) == Some((c.memory, c.time, c.threads))
  {
    SplitLayout(p);
    assert "m=" == ['m', '='] && "t=" == ['t', '='] && "p=" == ['p', '='];
    ParameterAfterName('m', p.memory);
    ParameterAfterName('t', p.time);
    ParameterAfterName('p', p.threads);
  }

  lemma DenotingIsParsed(p: Pieces, h: Hash)
    requires Denotes(p, h)
    ensures Parse(Layout(p)) == Some(h)
  {
    DenotingIsClean(p, h);
    SplitLayout(p);
    ParseCostsOfPieces(p, h.config);
    assert "v=" == ['v', '='];
    ParameterAfterName('v', p.version);
  }

  lemma NamedParameter(raw: string, name: char)
    requires ParseParameter(raw, name).Some?
    ensures raw == [name, '='] + raw[2..] && ParseUint(raw[2..]) == ParseParameter(raw, name)
  {
  }

  /** The three costs of a part that parses. */
  lemma ParsedCosts(raw: string) returns (memory: string, time: string, threads: string)
    requires ParseCosts(raw).Some?
    ensures raw == Join(["m=" + memory, "t=" + time, "p=" + threads], ',')
    ensures var costs := ParseCosts(raw).value;
            && ParseUint(memory) == Some(costs.0) && ParseUint(time) == Some(costs.1)
            && ParseUint(threads) == Some(costs.2) && costs.2 <= MAX_THREADS
  {
    JoinSplit(raw, ',');
    var costs := Split(raw, ',');
    memory, time, threads := costs[0][2..], costs[1][2..], costs[2][2..];
    NamedParameter(costs[0], 'm');
    NamedParameter(costs[1], 't');
    NamedParameter(costs[2], 'p');
    assert costs == ["m=" + memory, "t=" + time, "p=" + threads];
  }

  /** The pieces of a text that parses. */
  lemma ParsedDenotes(encoded: string, h: Hash) returns (p: Pieces)
    requires Parse(encoded) == Some(h)
    ensures Denotes(p, h) && encoded == Layout(p)
  {
    JoinSplit(encoded, '$');
    var parts := Split(encoded, '$');
    var memory, time, threads := ParsedCosts(parts[3]);
    NamedParameter(parts[2], 'v');
    p := Pieces(parts[2][2..], memory, time, threads, parts[4], parts[5]);
    assert parts[2] == "v=" + p.version;
    assert parts == Parts(p);
  }

  /** The accepted texts and their values, without any splitting. */
  lemma ParsesIffDenotes(encoded: string, h: Hash)
    ensures Parse(encoded) == Some(h) <==> exists p :: encoded == Layout(p) && Denotes(p, h)
  {
    if Parse(encoded) == Some(h) {
      var p := ParsedDenotes(encoded, h);
    }
    forall p | encoded == Layout(p) && Denotes(p, h)
      ensures Parse(encoded) == Some(h)
    {
      DenotingIsParsed(p, h);
    }
  }

  function Printed(c: Config, salt: seq<Base64.Byte>, key: seq<Base64.Byte>): (r: Pieces) {
    Pieces(Decimal(VERSION), Decimal(c.memory), Decimal(c.time), Decimal(c.threads), Base64.Encode(salt),
           Base64.Encode(key))
  }

  lemma JoinThree(a: string, b: string, c: string, s: char)
    ensures Join([a, b, c], s) == a + [s] + (b + [s] + c)
  {
    assert [a, b, c][1..] == [b, c] && [b, c][1..] == [c];
    assert Join([b, c], s) == b + [s] + Join([c], s);
  }

  lemma JoinMore(a: string, rest: seq<string>, s: char)
    requires rest != []
    ensures Join([a] + rest, s) == a + [s] + Join(rest, s)
  {
    assert ([a] + rest)[1..] == rest;
  }

  lemma CostsText(p: Pieces, front: string)
    ensures front + "$" + Join(Costs(p), ',') == front + "$m=" + p.memory + ",t=" + p.time + ",p=" + p.threads
  {
    JoinThree("m=" + p.memory, "t=" + p.time, "p=" + p.threads, ',');
  }

  lemma PartsText(p: Pieces)
    ensures Layout(p) == "$argon2id$v=" + p.version + "$" + Join(Parts(p)[3..], '$')
  {
    var rest := Parts(p)[3..];
    assert Parts(p) == [""] + (["argon2id"] + (["v=" + p.version] + rest));
    JoinMore("v=" + p.version, rest, '$');
    JoinMore("argon2id", ["v=" + p.version] + rest, '$');
    JoinMore("", ["argon2id"] + (["v=" + p.version] + rest), '$');
  }

  /** The layout as the format string writes it. */
  lemma LayoutText(p: Pieces)
    ensures Layout(p) == "$argon2id$v=" + p.version + "$m=" + p.memory + ",t=" + p.time + ",p=" + p.threads + "$"
            + p.salt + "$" + p.key
  {
    var costs, front := Join(Costs(p), ','), "$argon2id$v=" + p.version;
    PartsText(p);
    assert Parts(p)[3..] == [costs, p.salt, p.key];
    JoinThree(costs, p.salt, p.key, '$');
    CostsText(p, front);
    assert front + "$" + (costs + "$" + (p.salt + "$" + p.key)) == front + "$" + costs + "$" + p.salt + "$" + p.key;
  }

  lemma EncodeIsLayout(c: Config, salt: seq<Base64.Byte>, key: seq<Base64.Byte>)
    ensures Encode(c, salt, key) == Layout(Printed(c, salt, key))
  {
    LayoutText(Printed(c, salt, key));
  }

  lemma PrintedIsClean(c: Config, salt: seq<Base64.Byte>, key: seq<Base64.Byte>)
    ensures Clean(Printed(c, salt, key))
  {
    DecimalReadsBack(VERSION);
    DecimalReadsBack(c.memory);
    DecimalReadsBack(c.time);
    DecimalReadsBack(c.threads);
    Base64.RoundTrip(salt);
    Base64.RoundTrip(key);
    Base64.DecodableCharacters(Base64.Encode(salt));
    Base64.DecodableCharacters(Base64.Encode(key));
  }

  /** The bounds in numbers; threads are an eight-bit number. */
  predicate InBounds(c: Config) {
    && 1 <= c.memory <= 0x4000_0000 && 1 <= c.time <= 10 && 1 <= c.threads <= 255 && 8 * c.threads <= c.memory
    && 8 <= c.saltLength <= 0x10_0000 && 1 <= c.keyLength <= 0x10_0000
  }

  lemma ValidIffInBounds(c: Config)
    ensures ValidConfig(c) && c.threads <= MAX_THREADS <==> InBounds(c)
  {
  }

  /**
   A printed hash parses back to itself exactly for configurations within the bounds
   whose two lengths are those of the salt and the key.
   */
  lemma RoundTripIff(h: Hash)
    ensures Parse(Encode(h.config, h.salt, h.key)) == Some(h)
       <==> && InBounds(h.config) && h.config.saltLength == |h.salt| % 0x1_0000_0000
            && h.config.keyLength == |h.key| % 0x1_0000_0000
  {
    var p := Printed(h.config, h.salt, h.key);
    EncodeIsLayout(h.config, h.salt, h.key);
    ValidIffInBounds(h.config);
    if Parse(Layout(p)) == Some(h) {
      var q := ParsedDenotes(Layout(p), h);
    }
    if && InBounds(h.config) && h.config.saltLength == |h.salt| % TWO_TO_THE_32
       && h.config.keyLength == |h.key| % TWO_TO_THE_32 {
      DecimalReadsBack(VERSION);
      DecimalReadsBack(h.config.memory);
      DecimalReadsBack(h.config.time);
      DecimalReadsBack(h.config.threads);
      Base64.RoundTrip(h.salt);
      Base64.RoundTrip(h.key);
      DenotingIsParsed(p, h);
    }
  }

  lemma FitsIffKept(n: nat)
    ensures n % TWO_TO_THE_32 == n <==> n < TWO_TO_THE_32
  {
  }

  /** Everything the parser accepts is safe to derive with, and prints to an equal hash. */
  lemma ParsedIsBounded(encoded: string, h: Hash)
    requires Parse(encoded) == Some(h)
    ensures 1 <= h.config.memory <= 0x4000_0000 && 1 <= h.config.time <= 10
    ensures 1 <= h.config.threads <= 255 && 8 * h.config.threads <= h.config.memory
    ensures 8 <= h.config.saltLength <= 0x10_0000 && 1 <= h.config.keyLength <= 0x10_0000
    ensures h.config.saltLength == |h.salt| <==> |h.salt| < 0x1_0000_0000
    ensures h.config.keyLength == |h.key| <==> |h.key| < 0x1_0000_0000
    ensures Parse(Encode(h.config, h.salt, h.key)) == Some(h)
  {
    var p := ParsedDenotes(encoded, h);
    FitsIffKept(|h.salt|);
    FitsIffKept(|h.key|);
    DenotingReprints(p, h);
  }

  /** And every hash within these bounds is accepted as it is printed. */
  lemma BoundedIsParsed(h: Hash)
    requires 1 <= h.config.memory <= 0x4000_0000 && 1 <= h.config.time <= 10
    requires 1 <= h.config.threads <= 255 && 8 * h.config.threads <= h.config.memory
    requires 8 <= |h.salt| <= 0x10_0000 && 1 <= |h.key| <= 0x10_0000
    requires h.config.saltLength == |h.salt| && h.config.keyLength == |h.key|
    ensures Parse(Encode(h.config, h.salt, h.key)) == Some(h)
  {
    FitsIffKept(|h.salt|);
    FitsIffKept(|h.key|);
    RoundTripIff(h);
  }

  lemma DenotingReprints(p: Pieces, h: Hash)
    requires Denotes(p, h)
    ensures Parse(Encode(h.config, h.salt, h.key)) == Some(h)
  {
    RoundTripIff(h);
  }

  predicate NoLeadingZero(text: string) {
    text != "" && (|text| == 1 || text[0] != '0')
  }

  /**
   An accepted text is the printed form of its value iff its numbers have no leading
   zeros and both base64 pieces are canonical.
   */
  lemma ReprintsIff(p: Pieces, h: Hash)
    requires Denotes(p, h)
    ensures Layout(p) == Encode(h.config, h.salt, h.key)
       <==> && NoLeadingZero(p.version) && NoLeadingZero(p.memory) && NoLeadingZero(p.time) && NoLeadingZero(p.threads)
            && Base64.Canonical(p.salt) && Base64.Canonical(p.key)
  {
    var q := Printed(h.config, h.salt, h.key);
    EncodeIsLayout(h.config, h.salt, h.key);
    PrintedIsClean(h.config, h.salt, h.key);
    DenotingIsClean(p, h);
    LayoutIsInjective(p, q);
    PrintedIffNoLeadingZero(p.version);
    PrintedIffNoLeadingZero(p.memory);
    PrintedIffNoLeadingZero(p.time);
    PrintedIffNoLeadingZero(p.threads);
    Base64.CanonicalIff(p.salt);
    Base64.CanonicalIff(p.key);
  }

  lemma LayoutIsInjective(p: Pieces, q: Pieces)
    requires Clean(p) && Clean(q)
    ensures Layout(p) == Layout(q) <==> p == q
  {
    SplitLayout(p);
    SplitLayout(q);
    if Layout(p) == Layout(q) {
      assert Parts(p)[2] == Parts(q)[2] && Parts(p)[3] == Parts(q)[3] && Parts(p)[4] == Parts(q)[4]
             && Parts(p)[5] == Parts(q)[5];
      assert Costs(p)[0] == Costs(q)[0] && Costs(p)[1] == Costs(q)[1] && Costs(p)[2] == Costs(q)[2];
      assert Parts(p)[2][2..] == p.version && Parts(q)[2][2..] == q.version;
      assert Costs(p)[0][2..] == p.memory && Costs(q)[0][2..] == q.memory;
      assert Costs(p)[1][2..] == p.time && Costs(q)[1][2..] == q.time;
      assert Costs(p)[2][2..] == p.threads && Costs(q)[2][2..] == q.threads;
    }
  }

  /** Argon2: the same inputs give the same key. */
  type Derive = (string, seq<Base64.Byte>, Config) -> seq<Base64.Byte>

  function HashPassword(derive: Derive, config: Config, password: string, salt: seq<Base64.Byte>): (r: Option<string>) {
    match Normalize(config)
    case Some(c) => Some(Encode(c, salt, derive(password, salt, c)))
    case None => None
  }

  function Verify(derive: Derive, password: string, encoded: string): (r: Option<bool>) {
    match Parse(encoded)
    case Some(h) => Some(derive(password, h.salt, h.config) == h.key)
    case None => None
  }

  /** The parameters a hasher works with: a configuration of zeros stands for the default. */
  function Chosen(config: Config): (r: Config) {
    if config == Config(0, 0, 0, 0, 0) then Config(65536, 3, 4, 16, 32) else config
  }

  /** Hashing succeeds exactly for the default and for configurations within the bounds. */
  lemma HashingSucceedsIff(derive: Derive, config: Config, password: string, salt: seq<Base64.Byte>)
    requires config.threads <= 255
    ensures HashPassword(derive, config, password, salt).Some?
       <==> config == Config(0, 0, 0, 0, 0) || InBounds(config)
  {
    ValidIffInBounds(Chosen(config));
  }

  /** The stored hash is readable, and holds the parameters it was made with. */
  lemma StoredHashReadsBack(derive: Derive, config: Config, password: string, salt: seq<Base64.Byte>, stored: string)
    requires config.threads <= 255 && HashPassword(derive, config, password, salt) == Some(stored)
    requires |salt| == Chosen(config).saltLength && |derive(password, salt, Chosen(config))| == Chosen(config).keyLength
    ensures Parse(stored) == Some(Hash(Chosen(config), salt, derive(password, salt, Chosen(config))))
  {
    var c := Chosen(config);
    var h := Hash(c, salt, derive(password, salt, c));
    FitsIffKept(|salt|);
    FitsIffKept(|h.key|);
    ValidIffInBounds(c);
    RoundTripIff(h);
  }

  /**
   So a stored hash accepts exactly the passwords with the same key under the parameters it
   was made with, whatever is configured when they are tried.
   */
  lemma StoredHashKeepsWorking(derive: Derive, config: Config, password: string, salt: seq<Base64.Byte>,
      stored: string, attempt: string)
    requires config.threads <= 255 && HashPassword(derive, config, password, salt) == Some(stored)
    requires |salt| == Chosen(config).saltLength && |derive(password, salt, Chosen(config))| == Chosen(config).keyLength
    ensures Verify(derive, attempt, stored)
         == Some(derive(attempt, salt, Chosen(config)) == derive(password, salt, Chosen(config)))
  {
    StoredHashReadsBack(derive, config, password, salt, stored);
  }

  /** How a hash with the default parameters is written. */
  lemma DefaultText(derive: Derive, password: string, salt: seq<Base64.Byte>)
    ensures var key := derive(password, salt, Config(65536, 3, 4, 16, 32));
            HashPassword(derive, Config(0, 0, 0, 0, 0), password, salt)
            == Some("$argon2id$v=19$m=65536,t=3,p=4$" + Base64.Encode(salt) + "$" + Base64.Encode(key))
  {
    var key := derive(password, salt, Config(65536, 3, 4, 16, 32));
    TwoDigits();
    MemoryDigits();
    assert "$argon2id$v=19$m=65536,t=3,p=4$"
           == "$argon2id$v=" + "19" + "$m=" + "65536" + ",t=" + "3" + ",p=" + "4" + "$";
  }

  lemma TwoDigits()
    ensures Decimal(19) == "19" && Decimal(3) == "3" && Decimal(4) == "4"
  {
    assert Decimal(1) == "1";
  }

  lemma MemoryDigits()
    ensures Decimal(65536) == "65536"
  {
    assert Decimal(6) == "6" && Decimal(65) == "65" && Decimal(655) == "655" && Decimal(6553) == "6553";
  }
}
