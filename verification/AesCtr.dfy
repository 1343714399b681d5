/**
 AES in counter mode (section 6.5 of NIST SP 800-38A), reduced to what the
 protocol relies on: the data is XORed with a keystream that depends only on the
 key, the initialisation vector and the position. The keystream itself is a
 parameter, so every statement holds for every block cipher.
 */
module AesCtr {
  import opened Bytes

  type Key = nat
  type Keystream = (Key, Iv, nat) -> byte

  function Xcrypt(stream: Keystream, key: Key, iv: Iv, input: seq<byte>): (output: seq<byte>)
    ensures |output| == |input|
  {
    seq(|input|, i requires 0 <= i < |input| => input[i] ^ stream(key, iv, i))
  }

  /** Input and output differ, at each position, by the keystream byte there: the
      data is masked, position by position, and by nothing else. */
  lemma XcryptMasks(stream: Keystream, key: Key, iv: Iv, input: seq<byte>, i: nat)
    requires i < |input|
    ensures Xcrypt(stream, key, iv, input)[i] ^ input[i] == stream(key, iv, i)
  {
    var a, k := input[i], stream(key, iv, i);
    assert (a ^ k) ^ a == k;
  }

  lemma XorTwice(a: byte, k: byte)
    ensures (a ^ k) ^ k == a
  {
  }

  /** One primitive serves both directions. */
  lemma XcryptInvolution(stream: Keystream, key: Key, iv: Iv, input: seq<byte>)
    ensures Xcrypt(stream, key, iv, Xcrypt(stream, key, iv, input)) == input
  {
    var once := Xcrypt(stream, key, iv, input);
    var twice := Xcrypt(stream, key, iv, once);
    forall i | 0 <= i < |input|
      ensures twice[i] == input[i]
    {
      XorTwice(input[i], stream(key, iv, i));
    }
  }

  /** Under one key and IV, equal outputs come from equal inputs. */
  lemma XcryptInjective(stream: Keystream, key: Key, iv: Iv, a: seq<byte>, b: seq<byte>)
    ensures Xcrypt(stream, key, iv, a) == Xcrypt(stream, key, iv, b) <==> a == b
  {
    XcryptInvolution(stream, key, iv, a);
    XcryptInvolution(stream, key, iv, b);
  }
}
