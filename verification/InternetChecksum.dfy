/** The Internet checksum of section 2 of RFC 1071: the one's complement of the
    one's complement sum of the big-endian 16-bit words, an odd last octet being
    padded with zero. */
module InternetChecksum {
  import opened Wire

  /** What octet b contributes at offset i: the high or the low half of a word. */
  function Weighted(i: nat, b: nat): nat {
    if i % 2 == 0 then 256 * b else b
  }

  /** The plain integer sum of the words of s. */
  function WordSum(s: seq<byte>): nat {
    if s == [] then 0
    else WordSum(s[..|s| - 1]) + Weighted(|s| - 1, s[|s| - 1])
  }

  /** The one's complement representative of n: 0 only for 0, otherwise in 1..65535. */
  function Fold(n: nat): u16 {
    if n == 0 then 0 else (n - 1) % 65535 + 1
  }

  function Word(hi: nat, lo: nat): nat {
    256 * hi + lo
  }

  /** Overwrites the two octets at offset i with a big-endian word. */
  function SetWord(s: seq<byte>, i: nat, word: u16): (r: seq<byte>)
    requires i + 1 < |s|
    ensures |r| == |s|
  {
    s[i := word / 256][i + 1 := word % 256]
  }

  function ChecksumOf(s: seq<byte>): u16 {
    65535 - Fold(WordSum(s))
  }

  /** The receiver's test: the checksum over everything, checksum field included, is zero. */
  predicate Verifies(s: seq<byte>) {
    ChecksumOf(s) == 0
  }

  function AddWithCarry(acc: nat, word: nat): nat {
    if acc + word > 65535 then acc + word - 65535 else acc + word
  }

  /** The end-around carry of the running sum computes the folded sum. */
  lemma {:induction false} FoldAdd(n: nat, word: nat)
    requires word <= 65535
    ensures Fold(n + word) == AddWithCarry(Fold(n), word)
  {
  }

  lemma {:induction false} WordSumSnoc(s: seq<byte>, b: byte)
    ensures WordSum(s + [b]) == WordSum(s) + Weighted(|s|, b)
  {
  }

  /** Completing a word adds it to the running sum. */
  lemma {:induction false} WordAdded(s: seq<byte>, hi: byte, lo: byte)
    requires |s| % 2 == 0
    ensures Fold(WordSum(s + [hi] + [lo])) == AddWithCarry(Fold(WordSum(s)), Word(hi, lo))
  {
    var n := WordSum(s);
    WordSumPair(s, hi, lo);
    FoldAdd(n, Word(hi, lo));
    assert WordSum(s + [hi] + [lo]) == n + Word(hi, lo);
  }

  lemma {:induction false} WordSumPair(s: seq<byte>, hi: byte, lo: byte)
    requires |s| % 2 == 0
    ensures WordSum(s + [hi] + [lo]) == WordSum(s) + Word(hi, lo)
  {
  }

  /** Words line up after an even number of octets, so sums of the parts add. */
  lemma {:induction false} WordSumConcat(a: seq<byte>, b: seq<byte>)
    requires |a| % 2 == 0
    ensures WordSum(a + b) == WordSum(a) + WordSum(b)
  {
    if b == [] {
      assert a + b == a;
    } else {
      var front := b[..|b| - 1];
      WordSumConcat(a, front);
      var all := a + b;
      assert all[..|all| - 1] == a + front;
      assert (|all| - 1) % 2 == (|b| - 1) % 2;
      assert WordSum(all) == WordSum(a + front) + Weighted(|all| - 1, b[|b| - 1]);
    }
  }

  lemma {:induction false} WordSumUpdate(s: seq<byte>, i: nat, b: byte)
    requires i < |s|
    ensures WordSum(s[i := b]) == WordSum(s) + Weighted(i, b) - Weighted(i, s[i])
  {
    var t := s[i := b];
    if i == |s| - 1 {
      assert t[..|t| - 1] == s[..|s| - 1];
    } else {
      WordSumUpdate(s[..|s| - 1], i, b);
      assert t[..|t| - 1] == s[..|s| - 1][i := b];
    }
  }

  lemma {:induction false} WordSumUpdateWord(s: seq<byte>, i: nat, hi: byte, lo: byte)
    requires i % 2 == 0 && i + 1 < |s|
    ensures WordSum(s[i := hi][i + 1 := lo]) == WordSum(s) + Word(hi, lo) - Word(s[i], s[i + 1])
  {
    WordSumUpdate(s, i, hi);
    WordSumUpdate(s[i := hi], i + 1, lo);
  }

  /** Replacing the two octets at an even offset moves the sum by the change of the word. */
  lemma {:induction false} WordSumSetWord(s: seq<byte>, i: nat, word: u16)
    requires i % 2 == 0 && i + 1 < |s|
    ensures WordSum(SetWord(s, i, word)) == WordSum(s) + word - Word(s[i], s[i + 1])
  {
    WordSumUpdateWord(s, i, word / 256, word % 256);
  }

  /** Patching the checksum over a zeroed field makes the whole verify. */
  lemma {:induction false} PatchVerifies(s: seq<byte>, i: nat)
    requires i % 2 == 0 && i + 1 < |s| && s[i] == 0 && s[i + 1] == 0
    ensures Verifies(SetWord(s, i, ChecksumOf(s)))
  {
    WordSumSetWord(s, i, ChecksumOf(s));
    FoldAdd(WordSum(s), ChecksumOf(s));
  }

  /** Any change of one octet of a verifying message is caught. */
  lemma {:induction false} ByteChangeCaught(s: seq<byte>, i: nat, b: byte)
    requires i < |s| && b != s[i] && Verifies(s)
    ensures !Verifies(s[i := b])
  {
    WordSumUpdate(s, i, b);
    var change := Weighted(i, b) - Weighted(i, s[i]);
    assert change != 0 && -65535 < change < 65535;
    assert WordSum(s) == 65535 * (WordSum(s) / 65535);
  }

  /** Two totals that differ in one word are both all ones only if the words are equal or
      are the two zeros. */
  lemma {:induction false} CompletesSum(n: nat, w: u16, k: nat, v: u16)
    requires n - w == k - v > 0 && Fold(n) == 65535
    ensures Fold(k) == 65535 <==> v == w || (v == 0 && w == 65535) || (v == 65535 && w == 0)
  {
  }

  /** A change confined to one aligned word of a message with other non-zero octets
      escapes exactly when it swaps the two zeros 0x0000 and 0xFFFF. */
  lemma {:induction false} WordChangeEscapesExactly(s: seq<byte>, i: nat, word: u16)
    requires i % 2 == 0 && i + 1 < |s| && Verifies(s)
    requires WordSum(s) > Word(s[i], s[i + 1])
    ensures Verifies(SetWord(s, i, word))
       <==> || word == Word(s[i], s[i + 1])
            || (word == 0 && Word(s[i], s[i + 1]) == 65535)
            || (word == 65535 && Word(s[i], s[i + 1]) == 0)
  {
    WordSumSetWord(s, i, word);
    CompletesSum(WordSum(s), Word(s[i], s[i + 1]), WordSum(SetWord(s, i, word)), word);
  }

  /** The running checksum object: octets are added in chunks of any length. */
  class Checksum {
    var sum: u16
    var trailing: Option<byte>
    ghost var added: seq<byte>

    ghost predicate Valid()
      reads this
    {
      match trailing
      case None => |added| % 2 == 0 && sum == Fold(WordSum(added))
      case Some(b) =>
        |added| % 2 == 1 && b == added[|added| - 1] && sum == Fold(WordSum(added[..|added| - 1]))
    }

    constructor ()
      ensures Valid() && added == []
    {
      sum, trailing, added := 0, None, [];
    }

    /** However the octets are split into calls, the object stands for their concatenation. */
    method AddBytes(bytes: seq<byte>)
      requires Valid()
      modifies this
      ensures Valid() && added == old(added) + bytes
    {
      var i := 0;
      while i < |bytes|
        invariant 0 <= i <= |bytes|
        invariant Valid() && added == old(added) + bytes[..i]
      {
        assert bytes[..i + 1] == bytes[..i] + [bytes[i]];
        AddByte(bytes[i]);
        i := i + 1;
      }
      assert bytes[..i] == bytes;
    }

    method AddByte(b: byte)
      requires Valid()
      modifies this
      ensures Valid() && added == old(added) + [b]
    {
      ghost var was := added;
      added := added + [b];
      match trailing
      case None =>
        assert added[..|added| - 1] == was;
        trailing := Some(b);
      case Some(high) =>
        ghost var front := was[..|was| - 1];
        assert was == front + [high];
        WordAdded(front, high, b);
        sum := AddWithCarry(sum, Word(high, b));
        trailing := None;
    }

    /** The two octets of the checksum over everything added so far. */
    method Value() returns (bytes: seq<byte>)
      requires Valid()
      ensures bytes == [ChecksumOf(added) / 256, ChecksumOf(added) % 256]
    {
      var total := sum;
      if trailing.Some? {
        ghost var front := added[..|added| - 1];
        assert added == front + [trailing.value];
        WordSumSnoc(front, trailing.value);
        FoldAdd(WordSum(front), Word(trailing.value, 0));
        total := AddWithCarry(sum, Word(trailing.value, 0));
      }
      var complement := 65535 - total;
      bytes := [complement / 256, complement % 256];
    }
  }
}
