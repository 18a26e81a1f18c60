/**
 * The password generator (src/process/gen_pass.rs): one character from each enabled
 * class, the rest drawn from the union of the enabled classes, then a shuffle. The
 * random number generator is modelled as nondeterministic choice: every index it could
 * draw is allowed, so what is proved holds whatever it draws.
 */
module GenPass {
  import opened Results
  import opened Errors
  import opened Bytes

  /** The `u8` of the `length` argument. */
  type u8 = x: int | 0 <= x < 256

  /** The four classes, as text; the ambiguous 'O', 'l', 'o' and '0' are left out. */
  const UPPER_CHARS: string := "ABCDEFGHIJKLMNPQRSTUVWXYZ"
  const LOWER_CHARS: string := "abcdefghijkmnpqrstuvwxyz"
  const NUMBER_CHARS: string := "123456789"
  const SYMBOL_CHARS: string := "!@#$%^&*_"

  /** The four classes as the byte strings the generator draws from. */
  const UPPER: seq<byte> := AsciiBytes(UPPER_CHARS)
  const LOWER: seq<byte> := AsciiBytes(LOWER_CHARS)
  const NUMBER: seq<byte> := AsciiBytes(NUMBER_CHARS)
  const SYMBOL: seq<byte> := AsciiBytes(SYMBOL_CHARS)

  /** The union of the enabled classes, built in the order the generator appends them. */
  function CharSet(upper: bool, lower: bool, number: bool, symbol: bool): (cs: seq<byte>)
    ensures |cs| == 0 <==> !(upper || lower || number || symbol)
  {
    ClassesAreNotEmpty();
    var cs1 := if upper then [] + UPPER else [];
    var cs2 := if lower then cs1 + LOWER else cs1;
    var cs3 := if number then cs2 + NUMBER else cs2;
    if symbol then cs3 + SYMBOL else cs3
  }

  /** The character set holds exactly the characters of the enabled classes, all of them ASCII. */
  lemma CharSetIsUnion(upper: bool, lower: bool, number: bool, symbol: bool)
    ensures IsAscii(CharSet(upper, lower, number, symbol))
    ensures forall c :: c in CharSet(upper, lower, number, symbol) <==>
      (upper && c in UPPER) || (lower && c in LOWER) || (number && c in NUMBER) || (symbol && c in SYMBOL)
  {
  }

  /** How many classes are enabled: the number of seed characters. */
  function Enabled(upper: bool, lower: bool, number: bool, symbol: bool): (n: nat)
    ensures n <= 4
    ensures n == 0 <==> !(upper || lower || number || symbol)
  {
    (if upper then 1 else 0) + (if lower then 1 else 0) + (if number then 1 else 0) + (if symbol then 1 else 0)
  }

  /** Some character of `p` belongs to the class `cls`. */
  predicate Covers(p: seq<byte>, cls: seq<byte>) {
    exists i :: 0 <= i < |p| && p[i] in cls
  }

  /** Every character of `p` belongs to `cs`. */
  predicate AllIn(p: seq<byte>, cs: seq<byte>) {
    forall i :: 0 <= i < |p| ==> p[i] in cs
  }

  /** `p` holds a character of each enabled class. */
  predicate CoversEnabled(p: seq<byte>, upper: bool, lower: bool, number: bool, symbol: bool) {
    && (upper ==> Covers(p, UPPER))
    && (lower ==> Covers(p, LOWER))
    && (number ==> Covers(p, NUMBER))
    && (symbol ==> Covers(p, SYMBOL))
  }

  /** What the generator promises of a password: its length, its alphabet, and one character of each enabled class. */
  predicate IsPassword(p: seq<byte>, length: nat, upper: bool, lower: bool, number: bool, symbol: bool) {
    && |p| == length
    && AllIn(p, CharSet(upper, lower, number, symbol))
    && CoversEnabled(p, upper, lower, number, symbol)
  }

  /** Rearranging characters keeps both the alphabet and the coverage of every class. */
  lemma {:induction false} PermutationKeepsPassword(p: seq<byte>, q: seq<byte>, length: nat, upper: bool, lower: bool, number: bool, symbol: bool)
    requires multiset(p) == multiset(q)
    requires IsPassword(p, length, upper, lower, number, symbol)
    ensures IsPassword(q, length, upper, lower, number, symbol)
  {
    assert |q| == |multiset(q)| == |multiset(p)| == |p|;
    var cs := CharSet(upper, lower, number, symbol);
    forall i | 0 <= i < |q| ensures q[i] in cs {
      assert q[i] in multiset(q);
      assert q[i] in multiset(p);
    }
    CoversOfPermutation(p, q, UPPER);
    CoversOfPermutation(p, q, LOWER);
    CoversOfPermutation(p, q, NUMBER);
    CoversOfPermutation(p, q, SYMBOL);
  }

  lemma {:induction false} CoversOfPermutation(p: seq<byte>, q: seq<byte>, cls: seq<byte>)
    requires multiset(p) == multiset(q)
    ensures Covers(p, cls) ==> Covers(q, cls)
  {
    if Covers(p, cls) {
      var i :| 0 <= i < |p| && p[i] in cls;
      assert p[i] in multiset(p);
      assert p[i] in multiset(q);
      var j :| 0 <= j < |q| && q[j] == p[i];
    }
  }

  /**
   * `SliceRandom::shuffle`: Fisher-Yates from the back, swapping each position with one
   * at or before it. Whatever positions are drawn, the result is a permutation.
   */
  method Shuffle(a: array<byte>)
    modifies a
    ensures multiset(a[..]) == multiset(old(a[..]))
  {
    var i := a.Length;
    while i > 1
      invariant 0 <= i <= a.Length
      invariant multiset(a[..]) == multiset(old(a[..]))
    {
      i := i - 1;
      var j :| 0 <= j <= i;
      a[i], a[j] := a[j], a[i];
    }
  }

  /** Appends a class to the character set and one character drawn from it to the password. */
  method AddClass(password: seq<byte>, charSet: seq<byte>, cls: seq<byte>) returns (p: seq<byte>, cs: seq<byte>)
    requires |cls| > 0
    requires AllIn(password, charSet)
    ensures cs == charSet + cls
    ensures |p| == |password| + 1
    ensures p[..|password|] == password && p[|password|] in cls
    ensures AllIn(p, cs) && Covers(p, cls)
    ensures forall other :: Covers(password, other) ==> Covers(p, other)
  {
    var k :| 0 <= k < |cls|;
    cs := charSet + cls;
    p := password + [cls[k]];
    assert p[|password|] in cls;
    forall other | Covers(password, other) ensures Covers(p, other) {
      CoversAppend(password, cls[k], other);
    }
  }

  /**
   * The first half of `process_gen_pass`: each enabled class is appended to the character
   * set, and one character drawn from it is pushed onto the password.
   */
  method SeedClasses(upper: bool, lower: bool, number: bool, symbol: bool) returns (password: seq<byte>, charSet: seq<byte>)
    ensures charSet == CharSet(upper, lower, number, symbol)
    ensures |password| == Enabled(upper, lower, number, symbol)
    ensures AllIn(password, charSet)
    ensures CoversEnabled(password, upper, lower, number, symbol)
  {
    ClassesAreNotEmpty();
    password, charSet := [], [];
    if upper {
      password, charSet := AddClass(password, charSet, UPPER);
    }
    assert charSet == CharSet(upper, false, false, false) && |password| == Enabled(upper, false, false, false);
    assert CoversEnabled(password, upper, false, false, false);
    if lower {
      password, charSet := AddClass(password, charSet, LOWER);
    }
    assert charSet == CharSet(upper, lower, false, false) && |password| == Enabled(upper, lower, false, false);
    assert CoversEnabled(password, upper, lower, false, false);
    if number {
      password, charSet := AddClass(password, charSet, NUMBER);
    }
    assert charSet == CharSet(upper, lower, number, false) && |password| == Enabled(upper, lower, number, false);
    assert CoversEnabled(password, upper, lower, number, false);
    if symbol {
      password, charSet := AddClass(password, charSet, SYMBOL);
    }
  }

  /**
   * `process_gen_pass`. A length under 4 is refused before anything is drawn. With no class
   * enabled the draw from the empty set panics ("cannot sample empty range"). Otherwise the
   * password has the requested length, draws only from the enabled classes and holds at
   * least one character of each, and it is ASCII, so the final UTF-8 conversion succeeds.
   */
  method GenPass(length: u8, upper: bool, lower: bool, number: bool, symbol: bool) returns (r: Result<string, Error>)
    ensures length < 4 ==> r == Err(PasswordTooShort)
    ensures length >= 4 && !(upper || lower || number || symbol) ==> r == Err(EmptyRange)
    ensures length >= 4 && (upper || lower || number || symbol) ==>
      r.Ok? && IsAsciiText(r.value) && IsPassword(AsciiBytes(r.value), length, upper, lower, number, symbol)
  {
    if length < 4 {
      return Err(PasswordTooShort);
    }
    var password, charSet := SeedClasses(upper, lower, number, symbol);
    // At most four seed characters, so `length - password.len()` does not underflow.
    assert |password| <= 4 <= length;
    var count := length - |password|;
    var n := 0;
    while n < count
      invariant 0 <= n <= count
      invariant |password| == length - count + n
      invariant n > 0 ==> |charSet| > 0
      invariant AllIn(password, charSet)
      invariant CoversEnabled(password, upper, lower, number, symbol)
    {
      if |charSet| == 0 {
        return Err(EmptyRange);
      }
      var k :| 0 <= k < |charSet|;
      DrawKeeps(password, charSet, k, upper, lower, number, symbol);
      password := password + [charSet[k]];
      n := n + 1;
    }
    assert IsPassword(password, length, upper, lower, number, symbol);
    PasswordIsAscii(password, length, upper, lower, number, symbol);
    r := ShuffleIntoText(password);
    PermutationKeepsPassword(password, AsciiBytes(r.value), length, upper, lower, number, symbol);
  }

  /** The last lines of `process_gen_pass`: shuffle the password in place, then read it as UTF-8. */
  method ShuffleIntoText(password: seq<byte>) returns (r: Result<string, Error>)
    requires IsAscii(password)
    ensures r.Ok? && IsAsciiText(r.value)
    ensures multiset(AsciiBytes(r.value)) == multiset(password)
  {
    var a := new byte[|password|](i requires 0 <= i < |password| => password[i]);
    assert a[..] == password;
    Shuffle(a);
    var shuffled := a[..];
    AsciiOfPermutation(password, shuffled);
    r := FromUtf8(shuffled);
  }

  lemma {:induction false} AsciiOfPermutation(p: seq<byte>, q: seq<byte>)
    requires multiset(p) == multiset(q) && IsAscii(p)
    ensures IsAscii(q)
  {
    forall i | 0 <= i < |q| ensures q[i] < 128 {
      assert q[i] in multiset(q);
      var j :| 0 <= j < |p| && p[j] == q[i];
    }
  }

  lemma {:induction false} CoversAppend(p: seq<byte>, x: byte, cls: seq<byte>)
    ensures Covers(p, cls) ==> Covers(p + [x], cls)
  {
    if Covers(p, cls) {
      var i :| 0 <= i < |p| && p[i] in cls;
      assert (p + [x])[i] in cls;
    }
  }

  /** Pushing a character drawn from the set keeps the alphabet and the coverage. */
  lemma {:induction false} DrawKeeps(p: seq<byte>, charSet: seq<byte>, k: nat, upper: bool, lower: bool, number: bool, symbol: bool)
    requires k < |charSet|
    requires AllIn(p, charSet) && CoversEnabled(p, upper, lower, number, symbol)
    ensures AllIn(p + [charSet[k]], charSet) && CoversEnabled(p + [charSet[k]], upper, lower, number, symbol)
  {
    CoversAppend(p, charSet[k], UPPER);
    CoversAppend(p, charSet[k], LOWER);
    CoversAppend(p, charSet[k], NUMBER);
    CoversAppend(p, charSet[k], SYMBOL);
  }

  /** A password is ASCII, since every class is. */
  lemma {:induction false} PasswordIsAscii(p: seq<byte>, length: nat, upper: bool, lower: bool, number: bool, symbol: bool)
    requires IsPassword(p, length, upper, lower, number, symbol)
    ensures IsAscii(p)
  {
    CharSetIsUnion(upper, lower, number, symbol);
  }

  /** The classes are ASCII, with 25, 24, 9 and 9 characters. */
  lemma ClassSizes()
    ensures IsAscii(UPPER) && IsAscii(LOWER) && IsAscii(NUMBER) && IsAscii(SYMBOL)
    ensures |UPPER| == 25 && |LOWER| == 24 && |NUMBER| == 9 && |SYMBOL| == 9
  {
  }

  /** No class holds a character that is easily confused with another: 'O', 'l', 'o' and '0' are absent. */
  lemma ClassesAvoidAmbiguous()
    ensures 'O' as int !in UPPER && 'l' as int !in LOWER && 'o' as int !in LOWER && '0' as int !in NUMBER
  {
    UpperAvoidsAmbiguous();
    LowerAvoidsAmbiguous();
    NumberAvoidsAmbiguous();
  }

  lemma UpperAvoidsAmbiguous()
    ensures 'O' as int !in UPPER
  {
    UpperCharsLackO();
    AsciiBytesMembers(UPPER_CHARS, 'O');
  }

  lemma LowerAvoidsAmbiguous()
    ensures 'l' as int !in LOWER && 'o' as int !in LOWER
  {
    LowerCharsLackL();
    AsciiBytesMembers(LOWER_CHARS, 'l');
    LowerCharsLackO();
    AsciiBytesMembers(LOWER_CHARS, 'o');
  }

  lemma UpperCharsLackO()
    ensures 'O' !in UPPER_CHARS
  {
  }

  lemma LowerCharsLackL()
    ensures 'l' !in LOWER_CHARS
  {
  }

  lemma LowerCharsLackO()
    ensures 'o' !in LOWER_CHARS
  {
  }

  lemma NumberAvoidsAmbiguous()
    ensures '0' as int !in NUMBER
  {
    assert '0' !in NUMBER_CHARS;
    AsciiBytesMembers(NUMBER_CHARS, '0');
  }

  /** A character's code is in the bytes of ASCII text exactly when the character is in the text. */
  lemma {:induction false} AsciiBytesMembers(s: string, c: char)
    requires IsAsciiText(s)
    ensures c as int in AsciiBytes(s) <==> c in s
  {
    if c as int in AsciiBytes(s) {
      var i :| 0 <= i < |s| && AsciiBytes(s)[i] == c as int;
      assert s[i] == c;
    }
  }

  lemma ClassesAreNotEmpty()
    ensures |UPPER| > 0 && |LOWER| > 0 && |NUMBER| > 0 && |SYMBOL| > 0
  {
  }
}
