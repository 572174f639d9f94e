/** Bytes, little-endian numbers and concatenation: the vocabulary of every stream in the model. */
module ByteStrings {

  datatype Option<+T> = None | Some(value: T) {
    function GetOr(default: T): T {
      match this
      case Some(v) => v
      case None => default
    }
  }

  /** The two ciphers hold different keys; a key is known only by its identity. */
  datatype Key = ChaKey(id: nat) | AesKey(id: nat)

  /**
    A byte is an ordinary octet, or position `at` of the ciphertext (tag included) of a sealed box.
    Ciphertext bytes are symbolic: that is what makes an ideal AEAD, whose opening succeeds for
    exactly one key, nonce and associated data, a concrete object of this model. With octets alone
    a 16 byte tag could never tell all boxes apart.
   */
  datatype Byte = Raw(v: Octet) | Cipher(box: Box, at: nat)
  datatype Box = Box(key: Key, nonce: seq<Octet>, aad: seq<Byte>, text: seq<Byte>)

  newtype Octet = x: int | 0 <= x < 256

  type Bytes = seq<Byte>

  // chunk numbers and lengths in front of the framing are 32 bit numbers
  const U32_LIMIT: nat := 0x1_0000_0000

  /** The number a byte stands for when it is read as part of a length or a field. */
  function Value(b: Byte): (n: nat)
    ensures n < 256
  {
    match b
    case Raw(v) => v as nat
    case Cipher(_, at) => at % 256
  }

  const ZERO: Byte := Raw(0)

  function Zeros(n: nat): Bytes {
    seq(n, _ => ZERO)
  }

  function Pow256(k: nat): nat {
    if k == 0 then 1 else 256 * Pow256(k - 1)
  }

  /** The low `k` bytes of `n`, least significant first (`to_le_bytes`, truncated to `k` bytes). */
  function LE(n: nat, k: nat): (bs: Bytes)
    ensures |bs| == k
    decreases k
  {
    if k == 0 then [] else [Raw((n % 256) as Octet)] + LE(n / 256, k - 1)
  }

  /** `from_le_bytes`. */
  function FromLE(bs: Bytes): (n: nat)
    ensures n < Pow256(|bs|)
  {
    if bs == [] then 0 else Value(bs[0]) + 256 * FromLE(bs[1..])
  }

  lemma {:induction false} FromLEOfLE(n: nat, k: nat)
    requires n < Pow256(k)
    ensures FromLE(LE(n, k)) == n
    decreases k
  {
    if k == 0 {
    } else {
      var b, rest := Raw((n % 256) as Octet), LE(n / 256, k - 1);
      FromLEOfLE(n / 256, k - 1);
      assert ([b] + rest)[1..] == rest;
      assert FromLE([b] + rest) == Value(b) + 256 * FromLE(rest);
    }
  }

  /** Keeping the first bytes of a wider encoding is the narrower encoding. */
  lemma {:induction false} LEPrefix(n: nat, k: nat, j: nat)
    requires j <= k
    ensures LE(n, k)[..j] == LE(n, j)
    decreases k
  {
    if j == 0 {
    } else {
      LEPrefix(n / 256, k - 1, j - 1);
      assert LE(n, k)[..j] == [LE(n, k)[0]] + LE(n / 256, k - 1)[..j - 1];
    }
  }

  /** Encodings of different numbers differ while both fit. */
  lemma LEInjective(m: nat, n: nat, k: nat)
    requires m < Pow256(k) && n < Pow256(k)
    requires LE(m, k) == LE(n, k)
    ensures m == n
  {
    FromLEOfLE(m, k);
    FromLEOfLE(n, k);
  }

  lemma Widths()
    ensures Pow256(1) == 0x100
    ensures Pow256(2) == 0x1_0000
    ensures Pow256(3) == 0x100_0000
    ensures Pow256(4) == 0x1_0000_0000
    ensures Pow256(8) == 0x1_0000_0000_0000_0000
  {
    assert Pow256(4) == 256 * Pow256(3);
    assert Pow256(5) == 256 * Pow256(4);
    assert Pow256(6) == 256 * Pow256(5);
    assert Pow256(7) == 256 * Pow256(6);
  }

  function Flatten<T>(ss: seq<seq<T>>): seq<T> {
    if ss == [] then [] else ss[0] + Flatten(ss[1..])
  }

  lemma {:induction false} FlattenAppend<T>(a: seq<seq<T>>, b: seq<seq<T>>)
    ensures Flatten(a + b) == Flatten(a) + Flatten(b)
  {
    if a == [] {
      assert a + b == b;
    } else {
      FlattenAppend(a[1..], b);
      assert (a + b)[1..] == a[1..] + b;
      assert a[0] + (Flatten(a[1..]) + Flatten(b)) == (a[0] + Flatten(a[1..])) + Flatten(b);
    }
  }

  lemma FlattenSnoc<T>(a: seq<seq<T>>, x: seq<T>)
    ensures Flatten(a + [x]) == Flatten(a) + x
  {
    FlattenAppend(a, [x]);
    assert [x][1..] == [];
    assert Flatten([x]) == x;
  }
}
