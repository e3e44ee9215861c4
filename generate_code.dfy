/** Random short codes over a fixed 62-character alphabet (backend/src/utils/generateCode.js).
    `Math.random()` is replaced by a caller-supplied stream of reals in [0, 1). */
module CodeGenerator {
  import opened Validate

  /** `ALPHANUM`: the upper-case letters, the lower-case letters, then the digits (one
      62-character literal in the source, written here as its three runs). */
  const ALPHANUM: string := "ABCDEFGHIJKLMNOPQRSTUVWXYZ" + "abcdefghijklmnopqrstuvwxyz" + "0123456789"

  /** The length `generateCode` uses when called without one. */
  const DEFAULT_LENGTH: nat := 6

  /** A value `Math.random()` can return. */
  predicate IsRandom(r: real)
  {
    0.0 <= r < 1.0
  }

  predicate AllRandom(rs: seq<real>)
  {
    forall i :: 0 <= i < |rs| ==> IsRandom(rs[i])
  }

  /** `Math.floor(Math.random() * ALPHANUM.length)`: always a valid index of `ALPHANUM`. */
  function RandomIndex(r: real): (k: nat)
    requires IsRandom(r)
    ensures k < |ALPHANUM| == 62
  {
    (r * (|ALPHANUM| as real)).Floor
  }

  /** The character expected at alphabet position `i`. */
  function AlphabetChar(i: nat): char
    requires i < 62
  {
    if i < 26 then ('A' as int + i) as char
    else if i < 52 then ('a' as int + (i - 26)) as char
    else ('0' as int + (i - 52)) as char
  }

  /** Position of an alphanumeric character in the alphabet. */
  function AlphabetIndex(c: char): (i: nat)
    requires IsAlnum(c)
    ensures i < 62 && AlphabetChar(i) == c
  {
    if 'A' <= c <= 'Z' then c as int - 'A' as int
    else if 'a' <= c <= 'z' then 26 + (c as int - 'a' as int)
    else 52 + (c as int - '0' as int)
  }

  lemma AlphanumAt(i: nat)
    requires i < |ALPHANUM|
    ensures ALPHANUM[i] == AlphabetChar(i)
  {
    var upper, lower, digits := "ABCDEFGHIJKLMNOPQRSTUVWXYZ", "abcdefghijklmnopqrstuvwxyz", "0123456789";
    if i < 26 {
      assert ALPHANUM[i] == upper[i];
    } else if i < 52 {
      assert ALPHANUM[i] == lower[i - 26];
    } else {
      assert ALPHANUM[i] == digits[i - 52];
    }
  }

  /** Distinct alphabet positions hold distinct characters. */
  lemma AlphabetCharInjective(i: nat, j: nat)
    requires i < j < 62
    ensures AlphabetChar(i) != AlphabetChar(j)
  {
  }

  /** Every character of `ALPHANUM` is a letter or a digit. */
  lemma AlphanumOnlyAlnum(i: nat)
    requires i < |ALPHANUM|
    ensures IsAlnum(ALPHANUM[i])
  {
    AlphanumAt(i);
  }

  /** Every letter and digit occurs in `ALPHANUM`, at its alphabet position. */
  lemma AlnumInAlphanum(c: char)
    requires IsAlnum(c)
    ensures ALPHANUM[AlphabetIndex(c)] == c
  {
    AlphanumAt(AlphabetIndex(c));
  }

  /** A character is in `ALPHANUM` exactly when it is in the class `[A-Za-z0-9]`. */
  lemma AlphanumMember(c: char)
    ensures c in ALPHANUM <==> IsAlnum(c)
  {
    if c in ALPHANUM {
      var i :| 0 <= i < |ALPHANUM| && ALPHANUM[i] == c;
      AlphanumOnlyAlnum(i);
    }
    if IsAlnum(c) {
      AlnumInAlphanum(c);
    }
  }

  /** `ALPHANUM` has 62 pairwise distinct characters, and they are exactly the class `[A-Za-z0-9]`. */
  lemma AlphanumIsTheCodeAlphabet()
    ensures |ALPHANUM| == 62
    ensures forall i, j :: 0 <= i < j < |ALPHANUM| ==> ALPHANUM[i] != ALPHANUM[j]
    ensures forall c :: c in ALPHANUM <==> IsAlnum(c)
  {
    forall i, j | 0 <= i < j < |ALPHANUM| ensures ALPHANUM[i] != ALPHANUM[j] {
      AlphanumAt(i);
      AlphanumAt(j);
      AlphabetCharInjective(i, j);
    }
    forall c ensures c in ALPHANUM <==> IsAlnum(c) {
      AlphanumMember(c);
    }
  }

  /** The code the loop builds from the random values `rs`: one alphabet character per value. */
  function CodeFrom(rs: seq<real>): (code: string)
    requires AllRandom(rs)
    ensures |code| == |rs|
    ensures forall i :: 0 <= i < |code| ==> code[i] in ALPHANUM
  {
    seq(|rs|, i requires 0 <= i < |rs| => ALPHANUM[RandomIndex(rs[i])])
  }

  /** `generateCode(length = 6)`: appends `length` random alphabet characters, drawing
      one value from `random` per character. */
  method GenerateCode(random: seq<real>, length: nat := DEFAULT_LENGTH) returns (result: string)
    requires length <= |random| && AllRandom(random[..length])
    ensures result == CodeFrom(random[..length])
    ensures |result| == length
    ensures forall i :: 0 <= i < |result| ==> result[i] in ALPHANUM
  {
    result := "";
    for i := 0 to length
      invariant |result| == i
      invariant forall k :: 0 <= k < i ==> result[k] == ALPHANUM[RandomIndex(random[k])]
    {
      assert IsRandom(random[..length][i]);
      result := result + [ALPHANUM[RandomIndex(random[i])]];
    }
  }

  /** A code of 6 to 8 generated characters passes `isValidCode`; in particular every
      default-length code does. */
  lemma GeneratedCodeIsValid(rs: seq<real>)
    requires AllRandom(rs)
    requires MIN_CODE_LENGTH <= |rs| <= MAX_CODE_LENGTH
    ensures IsValidCode(CodeFrom(rs))
  {
    AlphanumIsTheCodeAlphabet();
    var code := CodeFrom(rs);
    assert forall i :: 0 <= i < |code| ==> code[i] in ALPHANUM;
  }
}
