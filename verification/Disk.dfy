/** The ATA driver's data path: 512-byte buffers moved as 256 sixteen-bit words. */
module Disk {
  import opened Bytes

  const SECTOR_BYTES := 512
  const SECTOR_WORDS := 256

  newtype word = x: int | 0 <= x < 0x1_0000

  type Sector = s: seq<word> | |s| == SECTOR_WORDS witness Blank(SECTOR_WORDS)

  type Medium = map<nat, Sector>

  function Blank(n: nat): (s: seq<word>)
    ensures |s| == n
  {
    seq(n, _ => 0)
  }

  /** What a sector reads as; one never written reads as zeros. */
  function SectorAt(m: Medium, lba: nat): Sector {
    if lba in m then m[lba] else Blank(SECTOR_WORDS)
  }

  function PackWord(lo: byte, hi: byte): word {
    lo as word + 256 * (hi as word)
  }

  /** The words that carry a buffer: low byte first. */
  function Pack(b: seq<byte>): (ws: seq<word>)
    requires |b| % 2 == 0
    ensures |ws| == |b| / 2
  {
    if b == [] then [] else [PackWord(b[0], b[1])] + Pack(b[2..])
  }

  function Unpack(ws: seq<word>): (b: seq<byte>)
    ensures |b| == 2 * |ws|
  {
    if ws == [] then [] else [(ws[0] % 256) as byte, (ws[0] / 256 % 256) as byte] + Unpack(ws[1..])
  }

  lemma UnpackWord(lo: byte, hi: byte)
    ensures (PackWord(lo, hi) % 256) as byte == lo && (PackWord(lo, hi) / 256 % 256) as byte == hi
  {
  }

  lemma UnpackFirst(w: word, ws: seq<word>)
    ensures Unpack([w] + ws) == [(w % 256) as byte, (w / 256 % 256) as byte] + Unpack(ws)
  {
    assert ([w] + ws)[1..] == ws;
  }

  lemma {:induction false} UnpackAt(ws: seq<word>, i: nat)
    requires i < |ws|
    ensures Unpack(ws)[2 * i] == (ws[i] % 256) as byte && Unpack(ws)[2 * i + 1] == (ws[i] / 256 % 256) as byte
  {
    if i > 0 {
      UnpackAt(ws[1..], i - 1);
    }
  }

  /** No byte is lost or moved between a buffer and the wire. */
  lemma {:induction false} UnpackPack(b: seq<byte>)
    requires |b| % 2 == 0
    ensures Unpack(Pack(b)) == b
  {
    if b != [] {
      UnpackPack(b[2..]);
      UnpackFirst(PackWord(b[0], b[1]), Pack(b[2..]));
      UnpackWord(b[0], b[1]);
      assert b == [b[0], b[1]] + b[2..];
    }
  }

  /** Each word carries the byte at the even index in its low half, and the next one in its high half. */
  lemma {:induction false} PackAt(b: seq<byte>, i: nat)
    requires |b| % 2 == 0 && 2 * i < |b|
    ensures Pack(b)[i] as int % 0x100 == b[2 * i] as int && Pack(b)[i] as int / 0x100 == b[2 * i + 1] as int
  {
    if i > 0 {
      PackAt(b[2..], i - 1);
      assert Pack(b)[i] == Pack(b[2..])[i - 1];
    }
  }

  lemma {:induction false} PackConcat(a: seq<byte>, b: seq<byte>)
    requires |a| % 2 == 0 && |b| % 2 == 0
    ensures Pack(a + b) == Pack(a) + Pack(b)
  {
    if a == [] {
      assert a + b == b;
    } else {
      assert (a + b)[2..] == a[2..] + b;
      PackConcat(a[2..], b);
    }
  }

  class Drive {
    // Set once when the controller is probed.
    const present: bool
    // Whether the controller serves the n-th request.
    const answers: nat -> bool
    var calls: nat
    var medium: Medium

    constructor (present: bool, answers: nat -> bool, medium: Medium)
      ensures this.present == present && this.answers == answers
      ensures this.medium == medium && calls == 0
    {
      this.present, this.answers, this.medium, this.calls := present, answers, medium, 0;
    }

    ghost predicate Reliable() {
      forall n: nat :: answers(n)
    }

    method ReadSector(lba: nat, buffer: array<byte>) returns (ok: bool)
      requires buffer.Length == SECTOR_BYTES
      modifies this`calls, buffer
      ensures ok == (present && answers(old(calls))) && calls == old(calls) + 1
      ensures ok ==> buffer[..] == Unpack(SectorAt(medium, lba))
      ensures !ok ==> buffer[..] == old(buffer[..])
    {
      ok := present && answers(calls);
      calls := calls + 1;
      if !ok { return; }
      var words := SectorAt(medium, lba);
      for i := 0 to SECTOR_WORDS
        modifies buffer
        invariant forall k | 0 <= k < 2 * i :: buffer[k] == Unpack(words)[k]
      {
        UnpackAt(words, i);
        buffer[2 * i] := (words[i] % 256) as byte;
        buffer[2 * i + 1] := (words[i] / 256 % 256) as byte;
      }
    }

    method WriteSector(lba: nat, buffer: array<byte>) returns (ok: bool)
      requires buffer.Length == SECTOR_BYTES
      modifies this`calls, this`medium
      ensures ok == (present && answers(old(calls))) && calls == old(calls) + 1
      ensures medium == if ok then old(medium)[lba := Pack(buffer[..])] else old(medium)
    {
      ok := present && answers(calls);
      calls := calls + 1;
      if !ok { return; }
      var words: seq<word> := [];
      for i := 0 to SECTOR_WORDS
        modifies {}
        invariant words == Pack(buffer[..2 * i])
      {
        words := words + [PackWord(buffer[2 * i], buffer[2 * i + 1])];
        assert buffer[..2 * (i + 1)] == buffer[..2 * i] + [buffer[2 * i], buffer[2 * i + 1]];
        PackConcat(buffer[..2 * i], [buffer[2 * i], buffer[2 * i + 1]]);
      }
      assert buffer[..2 * SECTOR_WORDS] == buffer[..];
      medium := medium[lba := words];
    }
  }
}
