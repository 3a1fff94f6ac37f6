/**
 * RAS::InterpretError: the text for an error code the shield reports.
 * The low byte of the code indexes the major-category table, the high byte
 * the minor-category table.
 */
module Errors {
  import opened Types

  /** Major error categories (majorStr). */
  const MAJOR_STR: seq<string> := [
    "Unknown",
    "WAV file open",
    "WAV file read",
    "WAV file create",
    "WAV file finalize",
    "WAV file record",
    "Filesystem",
    "MKFS",
    "Presize"
  ]

  /** Minor error categories (minorStr). */
  const MINOR_STR: seq<string> := [
    "No error",
    "No such file",
    "Bad header",
    "Not a WAV file",
    "No WAVE chunk",
    "No format information",
    "Bad format information",
    "Not a PCM-coded file",
    "No audio data",
    "Bad audio data",
    "Seek error",
    "Cannot write buffer",
    "Cannot initialize disk",
    "Cannot mount disk",
    "Successful mount",
    "Cannot make filesystem",
    "Bad key code",
    "Cannot truncate file"
  ]

  /** Text in front of the numbers of an unrecognised code. */
  const BAD_CODE_PREFIX: string := "Bad error code "

  /** Size of the static text buffer InterpretError formats into. */
  const ERROR_TEXT_BUFFER: nat := 80

  predicate IsDigit(c: char) { '0' <= c <= '9' }

  predicate AllDigits(s: string) { forall i :: 0 <= i < |s| ==> IsDigit(s[i]) }

  function DigitChar(d: nat): (c: char)
    requires d < 10
    ensures IsDigit(c) && c as int - '0' as int == d
  {
    ('0' as int + d) as char
  }

  /** The number a string of decimal digits denotes. */
  function DecimalValue(s: string): nat
    requires AllDigits(s)
  {
    if s == [] then 0 else 10 * DecimalValue(s[..|s| - 1]) + (s[|s| - 1] as int - '0' as int)
  }

  /** No leading zero: a single digit, or a first digit other than '0'. */
  predicate Canonical(s: string) { |s| == 1 || (|s| > 1 && s[0] != '0') }

  /** sprintf's %u: the decimal digits of n, without leading zeros. */
  function Decimal(n: nat): (s: string)
    ensures 1 <= |s| && AllDigits(s) && Canonical(s)
    ensures DecimalValue(s) == n
  {
    if n < 10 then [DigitChar(n)]
    else
      var s := Decimal(n / 10) + [DigitChar(n % 10)];
      assert s[..|s| - 1] == Decimal(n / 10);
      s
  }

  /** A digit string without leading zeros that is longer than one digit denotes a positive number. */
  lemma {:induction false} CanonicalValuePositive(s: string)
    requires AllDigits(s) && |s| >= 1 && s[0] != '0'
    ensures DecimalValue(s) > 0
  {
    if |s| > 1 {
      CanonicalValuePositive(s[..|s| - 1]);
    }
  }

  /** %u is the only way to write a number without leading zeros. */
  lemma {:induction false} DecimalUnique(s: string)
    requires AllDigits(s) && Canonical(s)
    ensures Decimal(DecimalValue(s)) == s
  {
    var n := DecimalValue(s);
    var last := s[|s| - 1];
    var d := last as int - '0' as int;
    assert 0 <= d < 10 && DigitChar(d) == last;
    if |s| == 1 {
      assert s[..|s| - 1] == [] && DecimalValue([]) == 0;
      assert n == d;
      assert s == [last];
    } else {
      var init := s[..|s| - 1];
      assert init[0] == s[0] && AllDigits(init) && Canonical(init);
      CanonicalValuePositive(init);
      DecimalUnique(init);
      assert n == 10 * DecimalValue(init) + d;
      assert n >= 10 && n / 10 == DecimalValue(init) && n % 10 == d;
      assert Decimal(n) == Decimal(n / 10) + [DigitChar(n % 10)];
      assert s == init + [last];
    }
  }

  lemma {:induction false} DecimalLength(n: nat, digits: nat)
    requires n < Pow10(digits)
    ensures |Decimal(n)| <= digits + 1
  {
    if n >= 10 {
      assert digits > 0 && n / 10 < Pow10(digits - 1);
      DecimalLength(n / 10, digits - 1);
    }
  }

  function Pow10(k: nat): (p: nat)
    ensures p >= 1
  {
    if k == 0 then 1 else 10 * Pow10(k - 1)
  }

  /** Index of the first c in s, or |s| when there is none. */
  function IndexOf(s: string, c: char): (k: nat)
    ensures k <= |s|
    ensures forall j :: 0 <= j < k ==> s[j] != c
    ensures k < |s| ==> s[k] == c
  {
    if s == [] || s[0] == c then 0 else 1 + IndexOf(s[1..], c)
  }

  /** The error text for err: either "<major>: <minor>" or "Bad error code <major>.<minor>". */
  function InterpretError(err: u16): (r: string)
    ensures |r| < ERROR_TEXT_BUFFER  // the text and its terminator fit the static buffer
  {
    var minor := err / 0x100;   // err >> 8
    var major := err % 0x100;   // err & 0xFF
    if major >= |MAJOR_STR| || minor >= |MINOR_STR| then
      DecimalLength(major, 3);
      DecimalLength(minor, 3);
      BAD_CODE_PREFIX + Decimal(major) + "." + Decimal(minor)
    else
      assert forall i :: 0 <= i < |MAJOR_STR| ==> |MAJOR_STR[i]| <= 17;
      assert forall i :: 0 <= i < |MINOR_STR| ==> |MINOR_STR[i]| <= 22;
      MAJOR_STR[major] + ": " + MINOR_STR[minor]
  }

  /**
   * Reads "Bad error code M.N" back into (M, N), where M and N are written
   * without leading zeros as %u writes them; None for any other text.
   */
  function ParseBadErrorCode(s: string): Option<(nat, nat)>
  {
    if |s| < |BAD_CODE_PREFIX| || s[..|BAD_CODE_PREFIX|] != BAD_CODE_PREFIX then None
    else
      var rest := s[|BAD_CODE_PREFIX|..];
      var dot := IndexOf(rest, '.');
      if dot == |rest| then None
      else
        var a, b := rest[..dot], rest[dot + 1..];
        if !AllDigits(a) || !AllDigits(b) || !Canonical(a) || !Canonical(b) then None
        else Some((DecimalValue(a), DecimalValue(b)))
  }

  /** No major category reads like the start of the unrecognised-code text. */
  lemma MajorTextsAreNotBadCode(i: nat)
    requires i < |MAJOR_STR|
    ensures |MAJOR_STR[i]| >= 1 && MAJOR_STR[i][0] != BAD_CODE_PREFIX[0]
  {
  }

  /** A code inside both tables yields "<major text>: <minor text>", never the unrecognised form. */
  lemma InterpretErrorInRange(err: u16)
    requires err % 0x100 < |MAJOR_STR| && err / 0x100 < |MINOR_STR|
    ensures InterpretError(err) == MAJOR_STR[err % 0x100] + ": " + MINOR_STR[err / 0x100]
    ensures ParseBadErrorCode(InterpretError(err)) == None
  {
    var s := InterpretError(err);
    MajorTextsAreNotBadCode(err % 0x100);
    assert s[0] == MAJOR_STR[err % 0x100][0];
    if |s| >= |BAD_CODE_PREFIX| {
      assert s[..|BAD_CODE_PREFIX|][0] != BAD_CODE_PREFIX[0];
    }
  }

  /**
   * A code outside either table yields the unrecognised-code text, and the two
   * numbers in it are exactly the major and minor indices.
   */
  lemma InterpretErrorOutOfRange(err: u16)
    requires err % 0x100 >= |MAJOR_STR| || err / 0x100 >= |MINOR_STR|
    ensures InterpretError(err) == BAD_CODE_PREFIX + Decimal(err % 0x100) + "." + Decimal(err / 0x100)
    ensures ParseBadErrorCode(InterpretError(err)) == Some((err % 0x100, err / 0x100))
  {
    var s := InterpretError(err);
    var ma, mi := Decimal(err % 0x100), Decimal(err / 0x100);
    assert s == BAD_CODE_PREFIX + (ma + "." + mi);
    var rest := s[|BAD_CODE_PREFIX|..];
    assert s[..|BAD_CODE_PREFIX|] == BAD_CODE_PREFIX;
    assert rest == ma + "." + mi;
    var dot := IndexOf(rest, '.');
    assert rest[|ma|] == '.';
    assert dot == |ma|;
    assert rest[..dot] == ma;
    assert rest[dot + 1..] == mi;
  }

  /** Only the unrecognised-code text parses, and it parses to the two numbers it was printed from. */
  lemma ParseBadErrorCodeSound(s: string, major: nat, minor: nat)
    requires ParseBadErrorCode(s) == Some((major, minor))
    ensures s == BAD_CODE_PREFIX + Decimal(major) + "." + Decimal(minor)
  {
    var k := |BAD_CODE_PREFIX|;
    assert |s| >= k && s[..k] == BAD_CODE_PREFIX;
    var rest := s[k..];
    var dot := IndexOf(rest, '.');
    assert dot < |rest| && rest[dot] == '.';
    var a, b := rest[..dot], rest[dot + 1..];
    assert AllDigits(a) && AllDigits(b) && Canonical(a) && Canonical(b);
    assert major == DecimalValue(a) && minor == DecimalValue(b);
    DecimalUnique(a);
    DecimalUnique(b);
    JoinAtDot(s, k, dot);
  }

  /** s cut after its first k characters and around the dot at position k + dot. */
  lemma JoinAtDot(s: string, k: nat, dot: nat)
    requires k + dot < |s| && s[k + dot] == '.'
    ensures s == s[..k] + s[k..][..dot] + "." + s[k..][dot + 1..]
  {
    assert s[k..][dot] == '.';
    assert s[k..] == s[k..][..dot] + "." + s[k..][dot + 1..];
    assert s == s[..k] + s[k..];
  }
}
