// Pairing codes `nameplate-word-word-word` (crates/core/src/pairing/wordcode.rs) and
// the server's view of a nameplate (crates/rendezvous/src/mailbox.rs).
module WordCodes {
  import opened Basics
  import opened Names

  const NAMEPLATE_MIN := 1
  const NAMEPLATE_MAX := 9999
  const WORD_COUNT := 3
  const U32_MAX := 0xFFFF_FFFF

  predicate InRange(n: nat) {
    NAMEPLATE_MIN <= n <= NAMEPLATE_MAX
  }

  // ----- decimal numbers -----------------------------------------------------------

  function Digit(d: nat): char
    requires d < 10
  {
    "0123456789"[d]
  }

  /** How a number is printed. */
  function Decimal(n: nat): string {
    if n < 10 then [Digit(n)] else Decimal(n / 10) + [Digit(n % 10)]
  }

  predicate IsDigit(c: char) {
    '0' <= c <= '9'
  }

  predicate AllDigits(s: string) {
    forall i :: 0 <= i < |s| ==> IsDigit(s[i])
  }

  /** The value of a digit string, leading zeros or not. */
  function Value(s: string): nat
    requires AllDigits(s)
  {
    if s == "" then 0 else 10 * Value(s[..|s| - 1]) + (s[|s| - 1] as nat - '0' as nat)
  }

  /** The printed form: digits only, no leading zero unless it is the number 0. */
  predicate Canonical(s: string) {
    s != "" && AllDigits(s) && (|s| > 1 ==> s[0] != '0')
  }

  lemma {:induction false} DecimalRoundTrip(n: nat)
    ensures Canonical(Decimal(n)) && Value(Decimal(n)) == n
    ensures n > 0 ==> Decimal(n)[0] != '0'
  {
    var s := Decimal(n);
    if n < 10 {
      assert s[..0] == "";
    } else {
      DecimalRoundTrip(n / 10);
      assert s[..|s| - 1] == Decimal(n / 10);
    }
  }

  lemma {:induction false} CanonicalIsDecimal(s: string)
    requires Canonical(s)
    ensures Decimal(Value(s)) == s
  {
    var n := |s| - 1;
    var d := s[n] as nat - '0' as nat;
    assert Digit(d) == s[n];
    assert s == s[..n] + [s[n]];
    if n == 0 {
      assert s[..0] == "" && Value(s) == d;
    } else {
      CanonicalIsDecimal(s[..n]);
      CanonicalPositive(s[..n]);
      assert Value(s) / 10 == Value(s[..n]) && Value(s) % 10 == d;
    }
  }

  lemma {:induction false} CanonicalPositive(s: string)
    requires Canonical(s) && s[0] != '0'
    ensures Value(s) > 0
  {
    if |s| > 1 {
      CanonicalPositive(s[..|s| - 1]);
    } else {
      assert s[..0] == "";
    }
  }

  // ----- the server's nameplates ---------------------------------------------------

  datatype NameplateError = Empty | NotNumeric | LeadingZero | OutOfRange

  /** Only canonical decimal numbers of the range are nameplates to the server. A
      number too large for 32 bits is not numeric to it. */
  function ServerParse(raw: string): Result<nat, NameplateError> {
    if raw == "" then Err(Empty)
    else if !AllDigits(raw) then Err(NotNumeric)
    else if |raw| > 1 && raw[0] == '0' then Err(LeadingZero)
    else if Value(raw) > U32_MAX then Err(NotNumeric)
    else if !InRange(Value(raw)) then Err(OutOfRange)
    else Ok(Value(raw))
  }

  /** The strings the server accepts and the numbers 1..=9999 correspond one to one,
      by printing. */
  lemma ServerBijection(raw: string, n: nat)
    ensures ServerParse(raw) == Ok(n) <==> 1 <= n <= 9999 && raw == Decimal(n)
  {
    DecimalRoundTrip(n);
    if ServerParse(raw) == Ok(n) {
      CanonicalIsDecimal(raw);
    }
  }

  /** Why the server refuses a string. */
  lemma ServerRefusals(raw: string)
    ensures ServerParse(raw) == Err(Empty) <==> raw == ""
    ensures ServerParse(raw) == Err(LeadingZero) <==> |raw| > 1 && AllDigits(raw) && raw[0] == '0'
    ensures ServerParse(raw) == Err(OutOfRange) <==>
            Canonical(raw) && (Value(raw) == 0 || 10_000 <= Value(raw) < 0x1_0000_0000)
  {
  }

  // ----- the client's codes ----------------------------------------------------------

  datatype WordCodeError =
    | MissingHyphen
    | InvalidNameplate(part: string)
    | EmptyWords
    | WrongWordCount(n: nat)
    | UnknownWord(word: string)
    | DuplicateWord(word: string)

  datatype WordCode = WordCode(nameplate: nat, words: seq<string>)
  {
    function Password(): string
      requires |words| >= 1
    {
      Join(words, '-')
    }

    function Display(): string
      requires |words| >= 1
    {
      Decimal(nameplate) + "-" + Password()
    }

    /** What `generate` and `validate` promise, over the word list `list`. */
    predicate Valid(list: seq<string>) {
      InRange(nameplate) && |words| == WORD_COUNT && NoDup(words) && forall w :: w in words ==> w in list
    }
  }

  /** The word list: words that a code can be split around. */
  predicate WellFormed(list: seq<string>) {
    forall w :: w in list ==> w != "" && '-' !in w
  }

  /** The client is more lenient than the server: it takes leading zeros. */
  function ParseNameplate(part: string): Result<nat, WordCodeError> {
    if part == "" || !AllDigits(part) || Value(part) > U32_MAX || !InRange(Value(part))
    then Err(InvalidNameplate(part))
    else Ok(Value(part))
  }

  /** Digits only, leading zeros or not, of a value from 1 to 9999. */
  predicate NameplatePart(part: string, n: nat) {
    part != "" && AllDigits(part) && Value(part) == n && 1 <= n <= 9999
  }

  /** What the client takes for a nameplate the server knows under its printed form. */
  lemma ClientToServer(part: string)
    requires ParseNameplate(part).Ok?
    ensures ServerParse(Decimal(ParseNameplate(part).value)) == Ok(ParseNameplate(part).value)
    ensures ServerParse(part).Ok? <==> part == Decimal(ParseNameplate(part).value)
  {
    var n := ParseNameplate(part).value;
    ServerBijection(Decimal(n), n);
    ServerBijection(part, n);
    if ServerParse(part).Ok? {
      ServerBijection(part, ServerParse(part).value);
    }
  }

  function IndexOf(s: string, c: char): (i: nat)
    ensures i <= |s| && c !in s[..i] && (i < |s| ==> s[i] == c)
  {
    if s == "" then 0
    else if s[0] == c then 0
    else
      var i := IndexOf(s[1..], c);
      assert s[..1 + i] == [s[0]] + s[1..][..i];
      1 + i
  }

  function SplitCode(s: string): Result<(nat, string), WordCodeError> {
    var i := IndexOf(s, '-');
    if i == |s| then Err(MissingHyphen)
    else if s[i + 1..] == "" then Err(EmptyWords)
    else
      match ParseNameplate(s[..i])
      case Err(e) => Err(e)
      case Ok(n) => Ok((n, s[i + 1..]))
  }

  /** The structural split takes exactly a nameplate, a hyphen and something after it; it
      fails for want of a hyphen, or of anything after the first one. */
  lemma SplitExactly(s: string, n: nat, words: string)
    ensures SplitCode(s) == Ok((n, words)) <==>
            exists part :: '-' !in part && NameplatePart(part, n) && s == part + "-" + words && words != ""
    ensures SplitCode(s) == Err(MissingHyphen) <==> '-' !in s
    ensures SplitCode(s) == Err(EmptyWords) <==> exists part :: '-' !in part && s == part + "-"
  {
    var i := IndexOf(s, '-');
    if i < |s| {
      assert s == s[..i] + "-" + s[i + 1..];
      assert s[i + 1..] == "" ==> s == s[..i] + "-";
    } else {
      assert s[..i] == s;
    }
    forall part, rest | '-' !in part && s == part + "-" + rest ensures part == s[..i] && rest == s[i + 1..] && i < |s| {
      FirstHyphen(part, rest);
    }
    forall part | '-' !in part && s == part + "-" ensures i < |s| && s[i + 1..] == "" {
      assert s == part + "-" + "";
      FirstHyphen(part, "");
    }
  }

  /** The different words among the draws, in the order in which they first appear. */
  function Distinct(list: seq<string>, draws: seq<nat>): (r: seq<string>)
    requires forall i :: 0 <= i < |draws| ==> draws[i] < |list|
    ensures NoDup(r) && forall w :: w in r ==> w in list
  {
    if draws == [] then []
    else
      var earlier := Distinct(list, draws[..|draws| - 1]);
      var word := list[draws[|draws| - 1]];
      if word in earlier then earlier else earlier + [word]
  }

  lemma {:induction false} DistinctExtends(list: seq<string>, draws: seq<nat>, n: nat)
    requires forall i :: 0 <= i < |draws| ==> draws[i] < |list|
    requires n <= |draws|
    ensures Distinct(list, draws[..n]) <= Distinct(list, draws)
  {
    if n == |draws| {
      assert draws[..n] == draws;
    } else {
      DistinctExtends(list, draws[..|draws| - 1], n);
      assert draws[..|draws| - 1][..n] == draws[..n];
    }
  }

  /** Draw words until there are enough different ones. `draws` is what the random
      generator picks; it goes on until it has picked enough different words. */
  method Generate(list: seq<string>, nameplate: nat, draws: seq<nat>) returns (r: Result<WordCode, WordCodeError>)
    requires forall i :: 0 <= i < |draws| ==> draws[i] < |list|
    requires |Distinct(list, draws)| >= WORD_COUNT
    ensures r.Ok? <==> InRange(nameplate)
    ensures r.Ok? ==> r.value.nameplate == nameplate && r.value.Valid(list)
    ensures r.Ok? ==> |r.value.words| == 3 && r.value.words <= Distinct(list, draws)
    ensures r.Err? ==> r.error == InvalidNameplate(Decimal(nameplate))
  {
    if !InRange(nameplate) {
      return Err(InvalidNameplate(Decimal(nameplate)));
    }
    var picked: seq<string> := [];
    ghost var i := 0;
    var rest := draws;
    while |picked| < WORD_COUNT
      invariant i <= |draws| && rest == draws[i..] && |picked| <= WORD_COUNT
      invariant picked == Distinct(list, draws[..i])
      decreases |rest|
    {
      assert rest != [] by {
        assert draws[..|draws|] == draws;
      }
      var word := list[rest[0]];
      assert draws[..i + 1][..i] == draws[..i];
      if word !in picked {
        picked := picked + [word];
      }
      rest, i := rest[1..], i + 1;
    }
    DistinctExtends(list, draws, i);
    r := Ok(WordCode(nameplate, picked));
  }

  /** The words of `parts` from `k` on, checked one by one. */
  function CheckWords(list: seq<string>, parts: seq<string>, k: nat): Option<WordCodeError>
    requires k <= |parts|
  {
    if k == 0 then None
    else
      match CheckWords(list, parts, k - 1)
      case Some(e) => Some(e)
      case None =>
        if parts[k - 1] !in list then Some(UnknownWord(parts[k - 1]))
        else if parts[k - 1] in parts[..k - 1] then Some(DuplicateWord(parts[k - 1]))
        else None
  }

  function Validated(list: seq<string>, s: string): Result<WordCode, WordCodeError> {
    var parts := Split(s, '-');
    if |parts| != WORD_COUNT + 1 then Err(WrongWordCount(|parts| - 1))
    else
      match ParseNameplate(parts[0])
      case Err(e) => Err(e)
      case Ok(n) =>
        match CheckWords(list, parts[1..], WORD_COUNT)
        case Some(e) => Err(e)
        case None => Ok(WordCode(n, parts[1..]))
  }

  method Validate(list: seq<string>, s: string) returns (r: Result<WordCode, WordCodeError>)
    requires WellFormed(list)
    ensures r == Validated(list, s)
  {
    var parts := Split(s, '-');
    if |parts| != WORD_COUNT + 1 {
      return Err(WrongWordCount(|parts| - 1));
    }
    var nameplate := ParseNameplate(parts[0]);
    if nameplate.Err? {
      return Err(nameplate.error);
    }
    var words := ["", "", ""];
    for slot := 0 to WORD_COUNT
      invariant |words| == WORD_COUNT && words[..slot] == parts[1..][..slot]
      invariant forall k :: slot <= k < WORD_COUNT ==> words[k] == ""
      invariant CheckWords(list, parts[1..], slot).None?
    {
      var word := parts[1..][slot];
      if word !in list {
        return Err(StopAt(list, parts[1..], slot));
      }
      if word in words {
        assert word != "" && word in words[..slot];
        return Err(StopAt(list, parts[1..], slot));
      }
      assert word !in words[..slot];
      words := words[slot := word];
    }
    assert words == parts[1..];
    r := Ok(WordCode(nameplate.value, words));
  }

  /** The error for the first bad word decides. */
  function StopAt(list: seq<string>, words: seq<string>, slot: nat): (e: WordCodeError)
    requires slot < |words| == WORD_COUNT && CheckWords(list, words, slot).None?
    requires words[slot] !in list || words[slot] in words[..slot]
    ensures CheckWords(list, words, WORD_COUNT) == Some(e)
  {
    assert CheckWords(list, words, slot + 1).Some?;
    assert slot + 2 <= WORD_COUNT ==> CheckWords(list, words, slot + 2) == CheckWords(list, words, slot + 1);
    assert slot + 3 <= WORD_COUNT ==> CheckWords(list, words, slot + 3) == CheckWords(list, words, slot + 1);
    if words[slot] !in list then UnknownWord(words[slot]) else DuplicateWord(words[slot])
  }

  lemma {:induction false} CheckedWords(list: seq<string>, words: seq<string>, k: nat)
    requires k <= |words|
    ensures CheckWords(list, words, k).None? <==> NoDup(words[..k]) && forall w :: w in words[..k] ==> w in list
  {
    if k == 0 {
    } else {
      CheckedWords(list, words, k - 1);
      assert words[..k] == words[..k - 1] + [words[k - 1]];
      assert words[..k][..k - 1] == words[..k - 1];
      if NoDup(words[..k]) {
        NoDupPrefix(words[..k], k - 1);
      }
    }
  }

  /** Word `k` is the first that stops a validation. */
  predicate FirstBad(list: seq<string>, words: seq<string>, k: nat) {
    && k < |words|
    && (words[k] !in list || words[k] in words[..k])
    && NoDup(words[..k]) && forall w :: w in words[..k] ==> w in list
  }

  lemma {:induction false} CheckStops(list: seq<string>, words: seq<string>, k: nat, e: WordCodeError)
    requires k <= |words| && CheckWords(list, words, k) == Some(e)
    ensures exists i: nat :: i < k && FirstBad(list, words, i) &&
              e == if words[i] !in list then UnknownWord(words[i]) else DuplicateWord(words[i])
  {
    if CheckWords(list, words, k - 1).Some? {
      CheckStops(list, words, k - 1, e);
    } else {
      CheckedWords(list, words, k - 1);
      assert FirstBad(list, words, k - 1);
    }
  }

  /** A code is accepted exactly if it is four pieces, the first a nameplate and the others
      different words of the list; otherwise the number of words, the nameplate and the
      first bad word decide the error, in this order. */
  lemma ValidatedExactly(list: seq<string>, s: string)
    ensures var parts, r := Split(s, '-'), Validated(list, s);
      if |parts| != 4 then r == Err(WrongWordCount(|parts| - 1))
      else if !NameplatePart(parts[0], if AllDigits(parts[0]) then Value(parts[0]) else 0) then r == Err(InvalidNameplate(parts[0]))
      else if NoDup(parts[1..]) && forall w :: w in parts[1..] ==> w in list then
        r == Ok(WordCode(Value(parts[0]), parts[1..]))
      else
        exists k: nat :: FirstBad(list, parts[1..], k) &&
          r == Err(if parts[1..][k] !in list then UnknownWord(parts[1..][k]) else DuplicateWord(parts[1..][k]))
  {
    var parts := Split(s, '-');
    if |parts| == 4 {
      var words := parts[1..];
      CheckedWords(list, words, 3);
      assert words[..3] == words;
      if CheckWords(list, words, 3).Some? {
        CheckStops(list, words, 3, CheckWords(list, words, 3).value);
      }
    }
  }

  lemma JoinCons(first: string, rest: seq<string>)
    requires |rest| >= 1
    ensures Join([first] + rest, '-') == first + "-" + Join(rest, '-')
  {
    assert ([first] + rest)[1..] == rest;
  }

  lemma DecimalHasNoHyphen(n: nat)
    ensures '-' !in Decimal(n)
  {
    DecimalRoundTrip(n);
  }

  /** Whatever is generated, or otherwise valid, is printed and read back unchanged. */
  lemma CodeRoundTrip(list: seq<string>, c: WordCode)
    requires WellFormed(list) && c.Valid(list)
    ensures Validated(list, c.Display()) == Ok(c)
  {
    var parts := [Decimal(c.nameplate)] + c.words;
    DecimalHasNoHyphen(c.nameplate);
    JoinCons(Decimal(c.nameplate), c.words);
    SplitJoin(parts, '-');
    DecimalRoundTrip(c.nameplate);
    assert parts[1..] == c.words;
    CheckedWords(list, c.words, WORD_COUNT);
    assert c.words[..WORD_COUNT] == c.words;
  }

  /** A validated code is valid, its nameplate and password are what the structural
      split hands out, and printing it gives a code that is read the same way. */
  lemma ValidatedMeaning(list: seq<string>, s: string)
    requires WellFormed(list) && Validated(list, s).Ok?
    ensures var c := Validated(list, s).value;
      && c.Valid(list)
      && SplitCode(s) == Ok((c.nameplate, c.Password()))
      && Validated(list, c.Display()) == Ok(c)
  {
    var parts := Split(s, '-');
    var c := Validated(list, s).value;
    CheckedWords(list, parts[1..], WORD_COUNT);
    assert parts[1..][..WORD_COUNT] == parts[1..];
    JoinSplit(s, '-');
    assert parts == [parts[0]] + parts[1..];
    JoinCons(parts[0], parts[1..]);
    FirstHyphen(parts[0], c.Password());
    assert parts[1..] == [parts[1]] + parts[2..];
    JoinCons(parts[1], parts[2..]);
    assert c.words[0] in c.words;
    CodeRoundTrip(list, c);
  }

  lemma FirstHyphen(first: string, rest: string)
    requires '-' !in first
    ensures IndexOf(first + "-" + rest, '-') == |first|
    ensures (first + "-" + rest)[..|first|] == first && (first + "-" + rest)[|first| + 1..] == rest
  {
    var s, i := first + "-" + rest, IndexOf(first + "-" + rest, '-');
    assert forall k :: 0 <= k < |first| ==> s[k] == first[k];
    assert forall k :: 0 <= k < i ==> s[k] == s[..i][k];
    assert s[|first|] == '-';
  }

  /** The password fed to the topic hash of the message broker: different nameplates
      or words never give the same input, once the words are normalized. */
  function TopicInput(nameplate: nat, words: string, normalize: string -> string): string {
    Decimal(nameplate) + "-" + normalize(words)
  }

  lemma TopicInputInjective(m: nat, v: string, n: nat, w: string, normalize: string -> string)
    requires TopicInput(m, v, normalize) == TopicInput(n, w, normalize)
    ensures m == n && normalize(v) == normalize(w)
  {
    DecimalHasNoHyphen(m);
    DecimalHasNoHyphen(n);
    FirstHyphen(Decimal(m), normalize(v));
    FirstHyphen(Decimal(n), normalize(w));
    DecimalRoundTrip(m);
    DecimalRoundTrip(n);
  }
}
