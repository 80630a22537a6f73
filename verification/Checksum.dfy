/** The Internet checksum of the IPv4 header and the ICMP echo packet (section 3.1 of RFC 791, section 1 of
    RFC 1071). */
module Checksum {
  import opened Blocks

  type Bytes = seq<Byte>

  const IPV4_FIELD: nat := 5     // 16-bit word that holds the checksum of an IPv4 header
  const ICMP_FIELD: nat := 1
  const ICMP_WORDS: nat := 32

  // ---------- One's-complement sums ----------

  /** The i-th 16-bit word in network order. */
  function Word(b: Bytes, i: nat): (w: nat)
    requires 2 * i + 1 < |b|
    ensures w <= 0xFFFF
  {
    var hi: int, lo: int := b[2 * i], b[2 * i + 1];
    hi * 256 + lo
  }

  function Words(b: Bytes, n: nat): (ws: seq<nat>)
    requires 2 * n <= |b|
    ensures |ws| == n && forall i :: 0 <= i < n ==> ws[i] == Word(b, i)
  {
    seq(n, i requires 0 <= i < n => Word(b, i))
  }

  function Total(ws: seq<nat>): (t: nat)
  {
    if ws == [] then 0 else Total(ws[..|ws| - 1]) + ws[|ws| - 1]
  }

  /** The 16-bit one's-complement value of a total: the residue modulo 0xFFFF, with 0 only for a total of 0. */
  function OnesSum(t: nat): (r: nat)
    ensures r <= 0xFFFF && (r == 0 <==> t == 0) && r % 0xFFFF == t % 0xFFFF
  {
    if t == 0 then 0 else (t - 1) % 0xFFFF + 1
  }

  /** A header is accepted when the sum over its words is 0xFFFF. */
  predicate Verifies(b: Bytes, n: nat)
    requires 2 * n <= |b|
  {
    OnesSum(Total(Words(b, n))) == 0xFFFF
  }

  /** Adding one word and folding the carry back at once is the same as folding the whole total. */
  lemma FoldStep(t: nat, w: nat)
    requires w <= 0xFFFF
    ensures var s := OnesSum(t) + w; OnesSum(t + w) == if s > 0xFFFF then s % 0x1_0000 + 1 else s
  {
    if t > 0 {
      var q, a := (t - 1) / 0xFFFF, (t - 1) % 0xFFFF;
      if a + w < 0xFFFF {
        Remainder(t + w - 1, q, a + w);
      } else {
        Remainder(t + w - 1, q + 1, a + w - 0xFFFF);
      }
    }
  }

  lemma Remainder(x: nat, q: nat, r: nat)
    requires r < 0xFFFF && x == 0xFFFF * q + r
    ensures x % 0xFFFF == r
  {
  }

  lemma {:induction false} TotalSet(ws: seq<nat>, k: nat, v: nat)
    requires k < |ws|
    ensures Total(ws[k := v]) == Total(ws) - ws[k] + v
  {
    var n := |ws| - 1;
    if k == n {
      assert ws[k := v][..n] == ws[..n];
    } else {
      assert ws[k := v][..n] == ws[..n][k := v];
      TotalSet(ws[..n], k, v);
    }
  }

  lemma {:induction false} TotalWithout(ws: seq<nat>, k: nat)
    requires k < |ws|
    ensures Total(ws[..k] + ws[k + 1..]) == Total(ws) - ws[k]
  {
    var n := |ws| - 1;
    var r := ws[..k] + ws[k + 1..];
    if k == n {
      assert r == ws[..n];
    } else {
      assert r[..|r| - 1] == ws[..n][..k] + ws[..n][k + 1..];
      TotalWithout(ws[..n], k);
    }
  }

  lemma Removed(ws: seq<nat>, k: nat)
    requires k < |ws|
    ensures multiset(ws[..k] + ws[k + 1..]) == multiset(ws) - multiset{ws[k]}
  {
    assert ws == ws[..k] + [ws[k]] + ws[k + 1..];
  }

  /** The order of the words does not matter. */
  lemma {:induction false} OrderFree(ws: seq<nat>, vs: seq<nat>)
    requires multiset(ws) == multiset(vs)
    ensures OnesSum(Total(ws)) == OnesSum(Total(vs)) && Total(ws) == Total(vs)
    decreases |ws|
  {
    hide OnesSum;
    if ws == [] {
      assert |multiset(vs)| == 0;
    } else {
      var n := |ws| - 1;
      var x := ws[n];
      assert x in multiset(ws);
      var k :| 0 <= k < |vs| && vs[k] == x;
      var rest := vs[..k] + vs[k + 1..];
      Removed(ws, n);
      Removed(vs, k);
      assert ws[..n] + ws[n + 1..] == ws[..n];
      OrderFree(ws[..n], rest);
      TotalWithout(vs, k);
    }
  }

  // ---------- The field ----------

  function Complement(s: nat): (r: nat)
    requires s <= 0xFFFF
    ensures r <= 0xFFFF
  {
    0xFFFF - s
  }

  /** The bytes after a word is stored at k in network order. */
  function Stored(b: Bytes, k: nat, v: nat): (r: Bytes)
    requires 2 * k + 1 < |b| && v <= 0xFFFF
    ensures |r| == |b|
  {
    b[2 * k := v / 256][2 * k + 1 := v % 256]
  }

  lemma StoredWords(b: Bytes, k: nat, v: nat, n: nat)
    requires 2 * k + 1 < |b| && v <= 0xFFFF && 2 * n <= |b|
    ensures Words(Stored(b, k, v), n) == if k < n then Words(b, n)[k := v] else Words(b, n)
  {
    forall i | 0 <= i < n
      ensures Word(Stored(b, k, v), i) == if i == k then v else Word(b, i)
    {
    }
  }

  lemma Residue(t: nat, v: nat)
    requires v <= 0xFFFF
    ensures OnesSum(t + v) == 0xFFFF <==> v == Complement(OnesSum(t)) || (OnesSum(t) == 0xFFFF == v)
  {
    FoldStep(t, v);
  }

  /** The sum with the field at zero decides which values of the field are accepted: its complement and, when that is
      zero, also the other zero, 0xFFFF. A field past the summed words decides nothing. */
  lemma AcceptedIff(b: Bytes, k: nat, v: nat, n: nat)
    requires 2 * k + 1 < |b| && v <= 0xFFFF && 2 * n <= |b|
    ensures var s := OnesSum(Total(Words(Stored(b, k, 0), n)));
      Verifies(Stored(b, k, v), n) <==> if k < n then v == Complement(s) || (s == 0xFFFF == v) else s == 0xFFFF
  {
    hide OnesSum, Total, Words, Stored, Complement;
    var ws := Words(b, n);
    StoredWords(b, k, 0, n);
    StoredWords(b, k, v, n);
    if k < n {
      TotalSet(ws, k, 0);
      TotalSet(ws, k, v);
      Residue(Total(ws[k := 0]), v);
    }
  }

  /** A header whose length nibble says 2 does not reach its checksum field: no stored value makes it verify. */
  lemma ShortHeaderFails(v: nat)
    requires v <= 0xFFFF
    ensures var b: Bytes := [0x42] + seq(19, _ => 0); HeaderWords(b[0]) == 4 && !Verifies(Stored(b, IPV4_FIELD, v), 4)
  {
    var b: Bytes := [0x42] + seq(19, _ => 0);
    AcceptedIff(b, IPV4_FIELD, v, 4);
    StoredWords(b, IPV4_FIELD, 0, 4);
    var ws := Words(b, 4);
    assert ws == [0x4200, 0, 0, 0];
    assert ws[..3][..2][..1] == [0x4200];
    assert ws[..3][..2][..1][..0] == [];
    assert Total(ws) == Total(ws[..3]) == Total(ws[..3][..2]) == Total(ws[..3][..2][..1]) == 0x4200;
  }

  // ---------- The loops ----------

  /** The low nibble of the first byte counts 32-bit words. */
  function HeaderWords(first: Byte): (n: nat)
    ensures n <= 30 && n % 2 == 0
  {
    (first % 16) * 2
  }

  /** The loop shared by ipv4_chksum and icmp_chksum: adds a word and folds the carry back at once. */
  method Fold(bin: array<Byte>, n: nat) returns (r: nat)
    requires 2 * n <= bin.Length
    ensures r == Complement(OnesSum(Total(Words(bin[..], n))))
  {
    var sum := 0;
    var i := 0;
    while i < n
      invariant i <= n && sum <= 0xFFFF && sum == OnesSum(Total(Words(bin[..], i)))
    {
      ghost var b := bin[..];
      assert Words(b, i + 1)[..i] == Words(b, i);
      FoldStep(Total(Words(b, i)), Word(b, i));
      var hi: int, lo: int := bin[2 * i], bin[2 * i + 1];
      sum := sum + hi * 256 + lo;
      if sum > 0xFFFF {
        sum := sum % 0x1_0000 + 1;
      }
      i := i + 1;
    }
    r := 0xFFFF - sum;
  }

  method Ipv4Chksum(bin: array<Byte>) returns (r: nat)
    requires bin.Length > 0 && 2 * HeaderWords(bin[0]) <= bin.Length
    ensures r == Complement(OnesSum(Total(Words(bin[..], HeaderWords(bin[0])))))
  {
    r := Fold(bin, HeaderWords(bin[0]));
  }

  method IcmpChksum(bin: array<Byte>) returns (r: nat)
    requires 64 <= bin.Length
    ensures r == Complement(OnesSum(Total(Words(bin[..], 32))))
  {
    r := Fold(bin, ICMP_WORDS);
  }

  /** H2N_ushort: swaps the two bytes. */
  function Swapped(v: nat): (r: nat)
    requires v <= 0xFFFF
    ensures r <= 0xFFFF && r % 256 == v / 256 && r / 256 == v % 256
  {
    (v % 256) * 256 + v / 256
  }

  /** Stores a 16-bit field the way the machine does, low byte first. */
  method StoreShort(p: array<Byte>, k: nat, v: nat)
    requires 2 * k + 1 < p.Length && v <= 0xFFFF
    modifies p
    ensures p[..] == Stored(old(p[..]), k, Swapped(v))
  {
    p[2 * k], p[2 * k + 1] := v % 256, v / 256;
  }

  /** The reply's IPv4 header: the field is cleared, the sum taken and stored. The header then verifies exactly when the
      summed words reach the field, or already summed to 0xFFFF without it. Only the field changes. */
  method SealIpv4(p: array<Byte>)
    requires 2 * IPV4_FIELD + 1 < p.Length && 2 * HeaderWords(p[0]) <= p.Length
    modifies p
    ensures forall i :: 0 <= i < p.Length && i != 10 && i != 11 ==> p[i] == old(p[i])
    ensures var n := HeaderWords(p[0]);
      Verifies(p[..], n) <==> n > 5 || OnesSum(Total(Words(old(p[..]), n))) == 0xFFFF
  {
    ghost var b, n := p[..], HeaderWords(p[0]);
    StoreShort(p, IPV4_FIELD, 0);
    var c := Ipv4Chksum(p);
    ghost var zeroed := p[..];
    StoreShort(p, IPV4_FIELD, Swapped(c));
    assert p[..] == Stored(b, IPV4_FIELD, c);
    AcceptedIff(b, IPV4_FIELD, c, n);
    StoredWords(b, IPV4_FIELD, 0, n);
  }

  /** The reply's ICMP part: the field is always among the 32 words summed, so the 64 bytes always verify. Only the
      field changes. */
  method SealIcmp(p: array<Byte>)
    requires 64 <= p.Length
    modifies p
    ensures forall i :: 0 <= i < p.Length && i != 2 && i != 3 ==> p[i] == old(p[i])
    ensures Verifies(p[..], 32)
  {
    ghost var b := p[..];
    StoreShort(p, ICMP_FIELD, 0);
    var c := IcmpChksum(p);
    StoreShort(p, ICMP_FIELD, Swapped(c));
    assert p[..] == Stored(b, ICMP_FIELD, c);
    AcceptedIff(b, ICMP_FIELD, c, ICMP_WORDS);
  }
}
