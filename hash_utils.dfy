// src/utils/hash_utils.cpp. XXHASH_H is never defined, so the compiled
// HashUtils::xxhash is the djb2 fallback: h := 5381, then h := (h << 5) + h + c
// for each byte c, in 64-bit unsigned arithmetic. `char` is signed on the
// targeted platform, so a byte >= 0x80 enters the sum sign-extended.
// uint64_t arithmetic is written out as integers reduced modulo 2^64.

module HashUtils {

  const Modulus: int := 0x1_0000_0000_0000_0000

  /** uint64_t */
  type Hash64 = x: int | 0 <= x < Modulus

  const Seed: Hash64 := 5381

  /** Unsigned 64-bit wrap-around */
  function Wrap(x: int): Hash64
  {
    x % Modulus
  }

  /** The 64-bit value of one `char` of the input: its byte, sign-extended */
  function CharWord(c: char): Hash64
  {
    var b := c as int % 256;
    if b < 128 then b else b + (Modulus - 256)
  }

  /** One step of the loop body, hash = ((hash << 5) + hash) + c: the shift is a
      multiplication by 32, and the wrap-around of the shift and of both additions
      amounts to one reduction modulo 2^64 of the exact sum */
  function Step(h: Hash64, c: char): Hash64
  {
    Wrap(h * 32 + h + CharWord(c))
  }

  /** The loop of xxhash, continued from accumulator `h` over `s` */
  function Fold(h: Hash64, s: string): Hash64
    decreases |s|
  {
    if |s| == 0 then h else Fold(Step(h, s[0]), s[1..])
  }

  /** HashUtils::xxhash as compiled (the djb2 fallback) */
  function XxHash(data: string): Hash64
  {
    Fold(Seed, data)
  }

  /** HashUtils::hash_url */
  function HashUrl(url: string): Hash64
  {
    XxHash(url)
  }

  /** HashUtils::hash_content */
  function HashContent(content: string): Hash64
  {
    XxHash(content)
  }

  /** The loop of xxhash as written: a range-for folding a local accumulator */
  method XxHashLoop(data: string) returns (hash: Hash64)
    ensures hash == XxHash(data)
    ensures data == [] ==> hash == 5381
  {
    hash := Seed;
    for i := 0 to |data|
      invariant Fold(hash, data[i..]) == XxHash(data)
    {
      assert data[i..][1..] == data[i + 1..];
      hash := Wrap(hash * 32 + hash + CharWord(data[i]));
    }
    assert data[|data|..] == [];
  }

  /** Hashing a concatenation continues from the hash of the prefix */
  lemma {:induction false} FoldConcat(h: Hash64, p: string, q: string)
    decreases |p|
    ensures Fold(h, p + q) == Fold(Fold(h, p), q)
  {
    if |p| > 0 {
      assert (p + q)[1..] == p[1..] + q;
      FoldConcat(Step(h, p[0]), p[1..], q);
    } else {
      assert p + q == q;
    }
  }

  /** Append law: xxhash(s + [c]) == xxhash(s) * 33 + c (mod 2^64) */
  lemma AppendLaw(s: string, c: char)
    ensures XxHash(s + [c]) == Wrap(XxHash(s) * 33 + CharWord(c))
  {
    FoldConcat(Seed, s, [c]);
    assert Fold(XxHash(s), [c]) == Step(XxHash(s), c);
  }

  /** hash_url and hash_content are the same function */
  lemma UrlAndContentHashAgree(s: string)
    ensures HashUrl(s) == HashContent(s)
  {
  }

  lemma FoldThree(h: Hash64, x: char, y: char, z: char)
    ensures Fold(h, [x, y, z]) == Step(Step(Step(h, x), y), z)
  {
    assert [x, y, z][1..] == [y, z] && [y, z][1..] == [z] && [z][1..] == [];
    assert Fold(Step(Step(h, x), y), [z]) == Step(Step(Step(h, x), y), z);
    assert Fold(Step(h, x), [y, z]) == Fold(Step(Step(h, x), y), [z]);
  }

  /** The arithmetic of the six steps, with the multiples of 2^64 each reduction took away */
  lemma DifferenceChain(h: int, c1: int, o1: int, c2: int, o2: int, c3: int, o3: int,
                        q1: int, p1: int, q2: int, p2: int, q3: int, p3: int)
    requires c1 == 33 * h + 99 - Modulus * q1 && o1 == 33 * h + 111 - Modulus * p1
    requires c2 == 33 * c1 + 111 - Modulus * q2 && o2 == 33 * o1 + 114 - Modulus * p2
    requires c3 == 33 * c2 + 109 - Modulus * q3 && o3 == 33 * o2 + 103 - Modulus * p3
    requires 0 <= c3 < Modulus && 0 <= o3 < Modulus
    ensures c3 != o3
  {
    var k := 1089 * (q1 - p1) + 33 * (q2 - p2) + (q3 - p3);
    assert c3 - o3 == -13161 - Modulus * k;
  }

  /** One step takes away a whole multiple of 2^64 from 33 * h + c */
  lemma StepQuotient(h: Hash64, c: char)
    ensures Step(h, c) == 33 * h + CharWord(c) - Modulus * ((33 * h + CharWord(c)) / Modulus)
  {
  }

  /** Three steps from the same accumulator over "com" and over "org" never meet:
      their difference is -13161 modulo 2^64 */
  lemma ThreeStepsDiffer(h: Hash64)
    ensures Step(Step(Step(h, 'c'), 'o'), 'm') != Step(Step(Step(h, 'o'), 'r'), 'g')
  {
    assert CharWord('c') == 99 && CharWord('o') == 111 && CharWord('r') == 114;
    assert CharWord('m') == 109 && CharWord('g') == 103;
    var c1, o1 := Step(h, 'c'), Step(h, 'o');
    var c2, o2 := Step(c1, 'o'), Step(o1, 'r');
    StepQuotient(h, 'c');
    StepQuotient(h, 'o');
    StepQuotient(c1, 'o');
    StepQuotient(o1, 'r');
    StepQuotient(c2, 'm');
    StepQuotient(o2, 'g');
    DifferenceChain(h, c1, o1, c2, o2, Step(c2, 'm'), Step(o2, 'g'),
                    (33 * h + 99) / Modulus, (33 * h + 111) / Modulus,
                    (33 * c1 + 111) / Modulus, (33 * o1 + 114) / Modulus,
                    (33 * c2 + 109) / Modulus, (33 * o2 + 103) / Modulus);
  }

  /** Any two strings ending in "com" and "org" after a common prefix hash differently */
  lemma ComOrgDiffer(prefix: string)
    ensures XxHash(prefix + "com") != XxHash(prefix + "org")
  {
    FoldConcat(Seed, prefix, "com");
    FoldConcat(Seed, prefix, "org");
    FoldThree(XxHash(prefix), 'c', 'o', 'm');
    FoldThree(XxHash(prefix), 'o', 'r', 'g');
    ThreeStepsDiffer(XxHash(prefix));
  }

  /** The unit test: "https://example.com" and "https://example.org" hash differently */
  lemma ExampleUrlsDiffer()
    ensures HashUrl("https://example.com") != HashUrl("https://example.org")
  {
    var p := "https://example.";
    ComOrgDiffer(p);
    assert p + "com" == "https://example.com";
    assert p + "org" == "https://example.org";
  }
}
