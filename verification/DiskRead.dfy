/** The block loop of disk_read in boot.c: the copy through the SPI FIFOs and the checksum test,
    against what the card's replies say. */
module DiskRead {
  import opened CrcTable16
  import opened CrcCode
  import opened ByteStream
  import opened Seqs
  import opened CrcDistance
  import C16 = Crc16
  import D16 = Crc16Distance
  import C7 = Crc7
  import GfByte

  /** The data token, and the sizes of a block and of what follows the token. */
  const TOKEN: bv8 := 0xfe
  const BLOCK: nat := 512
  const BODY: nat := 515

  datatype Option<T> = None | Some(value: T)

  /** The SPI controller with a card behind it: for every byte sent the card answers one byte, the
      next of its replies, which waits in the receive FIFO of 8 entries. A card that has no reply left
      is silent. */
  class Spi {
    const replies: seq<bv8>
    var sent: nat
    var received: nat

    ghost predicate Valid()
      reads this
    {
      received <= |replies| && received <= sent <= received + 8
    }

    constructor (replies: seq<bv8>)
      ensures Valid() && this.replies == replies && sent == received == 0
    {
      this.replies := replies;
      sent, received := 0, 0;
    }

    /** spi_sendbyte of a dummy byte: its reply must find room in the FIFO. */
    method SendByte()
      requires Valid() && sent < received + 8
      modifies this`sent
      ensures Valid() && sent == old(sent) + 1
    {
      sent := sent + 1;
    }

    /** Wait for a byte in the receive FIFO and read it. Some reply must be due; if the card is
        silent, the wait never ends. */
    method ReadByte() returns (r: Option<bv8>)
      requires Valid() && received < sent
      modifies this`received
      ensures Valid()
      ensures r == (if old(received) < |replies| then Some(replies[old(received)]) else None)
      ensures received == if r.Some? then old(received) + 1 else old(received)
    {
      if received == |replies| {
        return None;
      }
      r := Some(replies[received]);
      received := received + 1;
    }

    /** spi_dummy: send one byte and read the answer. */
    method Dummy() returns (r: Option<bv8>)
      requires Valid() && sent == received
      modifies this`sent, this`received
      ensures Valid()
      ensures r == (if old(received) < |replies| then Some(replies[old(received)]) else None)
      ensures r.Some? ==> sent == received == old(received) + 1
    {
      SendByte();
      r := ReadByte();
    }
  }

  // ----- what the replies hold

  /** The first data token at or after from; |s| if there is none. */
  function Token(s: seq<bv8>, from: nat): (k: nat)
    requires from <= |s|
    ensures from <= k <= |s|
    ensures k < |s| ==> s[k] == TOKEN
    ensures forall j :: from <= j < k ==> s[j] != TOKEN
    decreases |s| - from
  {
    if from == |s| || s[from] == TOKEN then from else Token(s, from + 1)
  }

  /** The 512 bytes after the token at k. */
  function Data(s: seq<bv8>, k: nat): (d: seq<bv8>)
    requires k + BODY <= |s|
    ensures |d| == BLOCK
  {
    s[k + 1..k + 1 + BLOCK]
  }

  /** The block after the token at k matches the checksum that follows it. */
  predicate Good(s: seq<bv8>, k: nat)
    requires k + BODY <= |s|
  {
    C16.Register(0, Data(s, k)) == Word(s[k + BLOCK + 1], s[k + BLOCK + 2])
  }

  /** How a call of disk_read goes on: it returns, it calls fail at a block, or it waits forever
      for a card that has fallen silent. */
  datatype Outcome = Returned | Failed(block: nat) | Waiting(block: nat)

  /** Where the card's replies leave the reading of a number of blocks. */
  datatype Reading = Reading(outcome: Outcome, data: seq<bv8>, next: nat)

  /** Read n blocks from a position on. */
  function Read(s: seq<bv8>, from: nat, n: nat): (r: Reading)
    requires from <= |s|
    ensures |r.data| <= BLOCK * n && r.next <= |s|
    ensures r.outcome.Returned? ==> |r.data| == BLOCK * n
    decreases n
  {
    if n == 0 then Reading(Returned, [], from)
    else
      var r := Read(s, from, n - 1);
      if !r.outcome.Returned? then r
      else
        var k := Token(s, r.next);
        if k + BODY > |s| then Reading(Waiting(n - 1), r.data, r.next)
        else if !Good(s, k) then Reading(Failed(n - 1), r.data, r.next)
        else Reading(Returned, r.data + Data(s, k), k + BODY)
  }

  /** The token of block b, when the blocks before it are read. */
  function BlockToken(s: seq<bv8>, from: nat, b: nat): nat
    requires from <= |s| && Read(s, from, b).outcome.Returned?
  {
    Token(s, Read(s, from, b).next)
  }

  lemma {:induction false} ReadPrefix(s: seq<bv8>, from: nat, b: nat, n: nat)
    requires from <= |s| && b <= n && Read(s, from, n).outcome.Returned?
    ensures Read(s, from, b).outcome.Returned?
    ensures Read(s, from, b).data == Read(s, from, n).data[..BLOCK * b]
    decreases n
  {
    hide Good, Data;
    if b < n {
      ReadPrefix(s, from, b, n - 1);
    }
  }

  /** If the reading returns, then every block is the 512 bytes after the first token that follows the
      block before it, and matches its checksum. */
  lemma {:induction false} ReturnedBlocks(s: seq<bv8>, from: nat, n: nat, b: nat)
    requires from <= |s| && b < n && Read(s, from, n).outcome.Returned?
    ensures Read(s, from, b).outcome.Returned?
    ensures var k, d := BlockToken(s, from, b), Read(s, from, n).data;
            k + BODY <= |s| && s[k] == TOKEN && Good(s, k) && d[BLOCK * b..BLOCK * (b + 1)] == Data(s, k)
    ensures Read(s, from, b + 1).outcome.Returned? && Read(s, from, b + 1).next == BlockToken(s, from, b) + BODY
  {
    hide Good, Data, Token, Read, BlockToken;
    ReadPrefix(s, from, b, n);
    ReadPrefix(s, from, b + 1, n);
    LastBlock(s, from, b);
    var d := Read(s, from, n).data;
    assert d[..BLOCK * (b + 1)][BLOCK * b..] == d[BLOCK * b..BLOCK * (b + 1)];
  }

  lemma {:induction false} LastBlock(s: seq<bv8>, from: nat, b: nat)
    requires from <= |s| && Read(s, from, b).outcome.Returned? && Read(s, from, b + 1).outcome.Returned?
    ensures var k := BlockToken(s, from, b);
            k + BODY <= |s| && s[k] == TOKEN && Good(s, k) && Read(s, from, b + 1).next == k + BODY &&
            Read(s, from, b + 1).data[BLOCK * b..] == Data(s, k)
  {
    hide Good, Data, Token;
  }

  /** If it does not return, the blocks before some block are read, and that block is the first to
      mismatch its checksum, or the first that the replies do not complete. */
  lemma {:induction false} StoppedBlock(s: seq<bv8>, from: nat, n: nat)
    requires from <= |s| && !Read(s, from, n).outcome.Returned?
    ensures var o := Read(s, from, n).outcome;
            o.block < n && Read(s, from, o.block).outcome.Returned? &&
            var k := BlockToken(s, from, o.block);
            if o.Failed? then k + BODY <= |s| && !Good(s, k) else k + BODY > |s|
    decreases n
  {
    hide Good, Data, Token;
    if !Read(s, from, n - 1).outcome.Returned? {
      StoppedBlock(s, from, n - 1);
    }
  }

  /** A block and the two checksum bytes behind it. */
  function Body(s: seq<bv8>, k: nat): (d: seq<bv8>)
    requires k + BODY <= |s|
    ensures |d| == BLOCK + 2
  {
    s[k + 1..k + BODY]
  }

  /** A block is accepted exactly if its bytes and its checksum drive the register to 0. */
  lemma {:induction false} GoodIffZero(s: seq<bv8>, k: nat)
    requires k + BODY <= |s|
    ensures Good(s, k) <==> C16.Register(0, Body(s, k)) == 0
  {
    hide C16.Register, Word;
    var hi, lo := s[k + BLOCK + 1], s[k + BLOCK + 2];
    assert Body(s, k) == Data(s, k) + [hi, lo];
    C16.ChecksumAppended(Data(s, k), hi, lo);
  }

  /** Two blocks that, with their checksum bytes, differ only inside a window of 16 consecutive bits are
      never both accepted, wherever the window lies. */
  lemma {:induction false} BurstNotAccepted(s: seq<bv8>, k: nat, t: seq<bv8>, l: nat, from: nat)
    requires k + BODY <= |s| && l + BODY <= |t|
    requires Body(s, k) != Body(t, l) && DifferWithin(Stream(Body(s, k)), Stream(Body(t, l)), from, 16)
    ensures !(Good(s, k) && Good(t, l))
  {
    hide Body, Good, Stream, C16.Register;
    GoodIffZero(s, k);
    GoodIffZero(t, l);
    C16.BurstChangesChecksum(Body(s, k), Body(t, l), from);
  }

  /** In particular if the checksum bytes are the same, and the data differ inside such a window. */
  lemma {:induction false} DataBurstNotAccepted(s: seq<bv8>, k: nat, t: seq<bv8>, l: nat, from: nat)
    requires k + BODY <= |s| && l + BODY <= |t|
    requires s[k + BLOCK + 1] == t[l + BLOCK + 1] && s[k + BLOCK + 2] == t[l + BLOCK + 2]
    requires Data(s, k) != Data(t, l) && DifferWithin(Stream(Data(s, k)), Stream(Data(t, l)), from, 16)
    ensures !(Good(s, k) && Good(t, l))
  {
    hide Good, Stream;
    var c := [s[k + BLOCK + 1], s[k + BLOCK + 2]];
    assert Body(s, k) == Data(s, k) + c && Body(t, l) == Data(t, l) + c;
    assert Body(s, k)[..BLOCK] == Data(s, k) && Body(t, l)[..BLOCK] == Data(t, l);
    StreamJoin(Data(s, k), c);
    StreamJoin(Data(t, l), c);
    DifferAppended(Stream(Data(s, k)), Stream(Data(t, l)), Stream(c), from, 16);
    BurstNotAccepted(s, k, t, l, from);
  }

  /** Two blocks that, with their checksum bytes, differ in two bits, or in any odd number of bits, are
      never both accepted, wherever these lie: it takes four flipped bits to get past the check. */
  lemma {:induction false} FewBitsNotAccepted(s: seq<bv8>, k: nat, t: seq<bv8>, l: nat)
    requires k + BODY <= |s| && l + BODY <= |t|
    requires var n := Differences(Stream(Body(s, k)), Stream(Body(t, l))); n == 2 || n % 2 == 1
    ensures !(Good(s, k) && Good(t, l))
  {
    hide Body, Good, Stream, C16.Register, Differences;
    GoodIffZero(s, k);
    GoodIffZero(t, l);
    if Differences(Stream(Body(s, k)), Stream(Body(t, l))) == 2 {
      D16.PairChangesChecksum(Body(s, k), Body(t, l));
    } else {
      D16.OddChangesChecksum(Body(s, k), Body(t, l));
    }
  }

  lemma {:induction false} DifferAppended(x: seq<bool>, y: seq<bool>, c: seq<bool>, from: nat, n: nat)
    requires DifferWithin(x, y, from, n)
    ensures DifferWithin(x + c, y + c, from, n)
  {
  }

  lemma {:induction false} TokenNext(s: seq<bv8>, from: nat)
    requires from < |s| && s[from] != TOKEN
    ensures Token(s, from) == Token(s, from + 1)
  {
  }

  lemma {:induction false} TokenHere(s: seq<bv8>, from: nat)
    requires from <= |s| && (from == |s| || s[from] == TOKEN)
    ensures Token(s, from) == from
  {
  }

  /** Send dummy bytes until the answer is the data token. */
  method WaitForToken(spi: Spi) returns (found: bool)
    requires spi.Valid() && spi.sent == spi.received
    modifies spi`sent, spi`received
    ensures spi.Valid()
    ensures found <==> Token(spi.replies, old(spi.received)) < |spi.replies|
    ensures found ==> spi.sent == spi.received == Token(spi.replies, old(spi.received)) + 1
  {
    hide Token;
    var r := spi.Dummy();
    ghost var s, from, at := spi.replies, old(spi.received), old(spi.received);
    while r.Some? && r.value != TOKEN
      invariant spi.Valid() && at <= |s| && Token(s, at) == Token(s, from)
      invariant r == if at < |s| then Some(s[at]) else None
      invariant r.Some? ==> spi.sent == spi.received == at + 1
      decreases |s| - at
    {
      TokenNext(s, at);
      at := at + 1;
      r := spi.Dummy();
    }
    TokenHere(s, at);
    found := r.Some?;
  }

  /** Eight bytes through the FIFO: send eight, then read the answers as they come in. */
  method ReadEight(spi: Spi, buf: array<bv8>, p: nat, crc0: bv16) returns (ok: bool, crc: bv16)
    requires spi.Valid() && spi.sent == spi.received && p + 8 <= buf.Length
    modifies spi`sent, spi`received, buf
    ensures spi.Valid()
    ensures ok <==> old(spi.received) + 8 <= |spi.replies|
    ensures buf[..p] == old(buf[..p]) && buf[p + 8..] == old(buf[p + 8..])
    ensures ok ==> buf[..] == Put(old(buf[..]), p, spi.replies[old(spi.received)..old(spi.received) + 8])
    ensures ok ==> crc == C16.Register(crc0, spi.replies[old(spi.received)..old(spi.received) + 8])
    ensures ok ==> spi.sent == spi.received == old(spi.received) + 8
  {
    hide Put, C16.Register, C16.TableStep;
    ghost var s, from, was := spi.replies, spi.received, buf[..];
    crc := crc0;
    var j := 0;
    while j < 8
      invariant 0 <= j <= 8
      invariant spi.Valid() && spi.received == from && spi.sent == from + j
      invariant buf[..] == was
    {
      spi.SendByte();
      j := j + 1;
    }
    ghost var x: seq<bv8> := [];
    PutNone(was, p, x);
    NoBytes(crc);
    j := 0;
    while j < 8
      invariant 0 <= j <= 8 && from + j <= |s|
      invariant spi.Valid() && spi.received == from + j && spi.sent == from + 8
      invariant |x| == j && x == s[from..from + j]
      invariant buf[..] == Put(was, p, x)
      invariant crc == C16.Register(crc0, x)
    {
      var r := spi.ReadByte();
      if r.None? {
        OutsideSame(was, p, x, buf[..], 8);
        return false, crc;
      }
      PutNext(was, p, x, r.value);
      C16.RegisterSnoc(crc0, x, r.value);
      SliceNext(s, from, j);
      buf[p + j] := r.value;
      crc := C16.TableStep(crc, r.value);
      x := x + [r.value];
      j := j + 1;
    }
    OutsideSame(was, p, x, buf[..], 8);
    ok := true;
  }

  lemma {:induction false} NoBytes(crc: bv16)
    ensures C16.Register(crc, []) == crc
  {
  }

  lemma {:induction false} OutsideSame(was: seq<bv8>, p: nat, x: seq<bv8>, now: seq<bv8>, n: nat)
    requires |x| <= n && p + n <= |was| && now == Put(was, p, x)
    ensures now[..p] == was[..p] && now[p + n..] == was[p + n..]
  {
  }

  /** The 512 bytes of a block, in 64 rounds. */
  method ReadBody(spi: Spi, buf: array<bv8>, p: nat) returns (ok: bool, crc: bv16)
    requires spi.Valid() && spi.sent == spi.received && p + BLOCK <= buf.Length
    modifies spi`sent, spi`received, buf
    ensures spi.Valid()
    ensures ok <==> old(spi.received) + BLOCK <= |spi.replies|
    ensures buf[..p] == old(buf[..p]) && buf[p + BLOCK..] == old(buf[p + BLOCK..])
    ensures ok ==> buf[..] == Put(old(buf[..]), p, spi.replies[old(spi.received)..old(spi.received) + BLOCK])
    ensures ok ==> crc == C16.Register(0, spi.replies[old(spi.received)..old(spi.received) + BLOCK])
    ensures ok ==> spi.sent == spi.received == old(spi.received) + BLOCK
  {
    hide Put, C16.Register, C16.TableStep;
    ghost var s, from, was := spi.replies, spi.received, buf[..];
    crc := 0;
    ghost var x: seq<bv8> := [];
    PutNone(was, p, x);
    NoBytes(crc);
    var n, done := BLOCK / 8, 0;
    while n > 0
      invariant done == 8 * (64 - n) && 0 <= n <= 64 && from + done <= |s|
      invariant spi.Valid() && spi.sent == spi.received == from + done
      invariant x == s[from..from + done]
      invariant buf[..] == Put(was, p, x)
      invariant crc == C16.Register(0, x)
      decreases n
    {
      ghost var before := buf[..];
      var more, next := ReadEight(spi, buf, p + done, crc);
      if !more {
        OutsideMore(was, p, x, before, buf[..], BLOCK);
        return false, crc;
      }
      BodyNext(was, p, s, from, done, crc);
      crc := next;
      x := s[from..from + done + 8];
      done := done + 8;
      n := n - 1;
    }
    OutsideSame(was, p, x, buf[..], BLOCK);
    ok := true;
  }

  /** Eight more bytes of a block. */
  lemma {:induction false} BodyNext(was: seq<bv8>, p: nat, s: seq<bv8>, from: nat, done: nat, crc: bv16)
    requires from + done + 8 <= |s| && p + done + 8 <= |was| && crc == C16.Register(0, s[from..from + done])
    ensures var x, y := s[from..from + done], s[from + done..from + done + 8];
            && Put(Put(was, p, x), p + done, y) == Put(was, p, s[from..from + done + 8])
            && C16.Register(crc, y) == C16.Register(0, s[from..from + done + 8])
  {
    hide *;
    var x, y := s[from..from + done], s[from + done..from + done + 8];
    PutPut(was, p, x, y);
    SliceJoin(s, from, done, 8);
    C16.RegisterJoin(0, x, y);
  }

  lemma {:induction false} OutsideMore(was: seq<bv8>, p: nat, x: seq<bv8>, before: seq<bv8>, now: seq<bv8>, n: nat)
    requires |x| + 8 <= n && p + n <= |was| == |now| && before == Put(was, p, x)
    requires now[..p + |x|] == before[..p + |x|] && now[p + |x| + 8..] == before[p + |x| + 8..]
    ensures now[..p] == was[..p] && now[p + n..] == was[p + n..]
  {
    assert now[..p] == now[..p + |x|][..p];
    assert now[p + n..] == now[p + |x| + 8..][n - |x| - 8..];
  }

  /** The two bytes after a block. */
  method ReadChecksum(spi: Spi) returns (r: Option<bv16>)
    requires spi.Valid() && spi.sent == spi.received
    modifies spi`sent, spi`received
    ensures spi.Valid()
    ensures r.Some? <==> old(spi.received) + 2 <= |spi.replies|
    ensures r.Some? ==> r.value == Word(spi.replies[old(spi.received)], spi.replies[old(spi.received) + 1])
    ensures r.Some? ==> spi.sent == spi.received == old(spi.received) + 2
  {
    hide Word;
    var hi := spi.Dummy();
    if hi.None? {
      return None;
    }
    var lo := spi.Dummy();
    if lo.None? {
      return None;
    }
    r := Some(Word(hi.value, lo.value));
  }

  /** One block: wait for its token, copy it, compare the checksums. */
  method ReadBlock(spi: Spi, buf: array<bv8>, p: nat, i: nat) returns (outcome: Outcome)
    requires spi.Valid() && spi.sent == spi.received && p + BLOCK <= buf.Length
    modifies spi`sent, spi`received, buf
    ensures spi.Valid()
    ensures buf[..p] == old(buf[..p]) && buf[p + BLOCK..] == old(buf[p + BLOCK..])
    ensures var k := Token(spi.replies, old(spi.received));
            outcome == if k + BODY > |spi.replies| then Waiting(i)
                       else if !Good(spi.replies, k) then Failed(i) else Returned
    ensures outcome.Returned? ==>
              var k := Token(spi.replies, old(spi.received));
              spi.sent == spi.received == k + BODY && buf[..] == Put(old(buf[..]), p, Data(spi.replies, k))
  {
    hide Token, Put, C16.Register, Word;
    ghost var s, k := spi.replies, Token(spi.replies, spi.received);
    var found := WaitForToken(spi);
    if !found {
      return Waiting(i);
    }
    var ok, crc := ReadBody(spi, buf, p);
    if !ok {
      return Waiting(i);
    }
    var expected := ReadChecksum(spi);
    if expected.None? {
      return Waiting(i);
    }
    assert Data(s, k) == s[k + 1..k + 1 + BLOCK];
    outcome := if crc != expected.value then Failed(i) else Returned;
  }

  lemma {:induction false} NoBlocks(s: seq<bv8>, from: nat)
    requires from <= |s|
    ensures Read(s, from, 0) == Reading(Returned, [], from)
  {
  }

  lemma {:induction false} NextBlock(s: seq<bv8>, from: nat, i: nat)
    requires from <= |s| && Read(s, from, i).outcome.Returned?
    ensures var r := Read(s, from, i);
            var k := Token(s, r.next);
            Read(s, from, i + 1) == if k + BODY > |s| then Reading(Waiting(i), r.data, r.next)
                                    else if !Good(s, k) then Reading(Failed(i), r.data, r.next)
                                    else Reading(Returned, r.data + Data(s, k), k + BODY)
  {
    hide Good, Data, Token;
  }

  /** A reading that does not return stays as it is. */
  lemma {:induction false} Stuck(s: seq<bv8>, from: nat, i: nat, n: nat)
    requires from <= |s| && i <= n && !Read(s, from, i).outcome.Returned?
    ensures Read(s, from, n) == Read(s, from, i)
    decreases n
  {
    hide Good, Data, Token;
    if i < n {
      Stuck(s, from, i, n - 1);
    }
  }

  /** disk_read after its command is accepted: the buffer receives exactly what the replies say, block
      after block, and nothing past 512 * count is written. */
  method DiskRead(spi: Spi, buf: array<bv8>, count: nat) returns (outcome: Outcome)
    requires spi.Valid() && spi.sent == spi.received && BLOCK * count <= buf.Length
    modifies spi`sent, spi`received, buf
    ensures spi.Valid()
    ensures var r := Read(spi.replies, old(spi.received), count);
            outcome == r.outcome && buf[..|r.data|] == r.data &&
            (outcome.Returned? ==> spi.sent == spi.received == r.next)
    ensures buf[BLOCK * count..] == old(buf[BLOCK * count..])
  {
    hide Read, Put, Token, Good, Data;
    ghost var s, from, data, rest: seq<bv8>, was := spi.replies, spi.received, [], buf[BLOCK * count..], buf[..];
    NoBlocks(s, from);
    PutNone(was, 0, data);
    var i, p := 0, 0;
    while i < count
      invariant 0 <= i <= count && p == BLOCK * i
      invariant spi.Valid() && spi.sent == spi.received && from <= |s|
      invariant Read(s, from, i) == Reading(Returned, data, spi.received)
      invariant |data| == p && buf[..p] == data
      invariant buf[BLOCK * count..] == rest
    {
      ghost var before, k := buf[..], Token(s, spi.received);
      NextBlock(s, from, i);
      outcome := ReadBlock(spi, buf, p, i);
      BlockStored(before, buf[..], data, p, count, i);
      if !outcome.Returned? {
        Stuck(s, from, i + 1, count);
        return outcome;
      }
      PutEnds(before, p, Data(s, k), buf[..]);
      data := data + Data(s, k);
      i, p := i + 1, p + BLOCK;
    }
    outcome := Returned;
  }

  lemma {:induction false} BlockStored(before: seq<bv8>, now: seq<bv8>, data: seq<bv8>, p: nat, count: nat, i: nat)
    requires i < count && p == BLOCK * i && BLOCK * count <= |before| == |now|
    requires before[..p] == data && now[..p] == before[..p] && now[p + BLOCK..] == before[p + BLOCK..]
    ensures now[..p] == data && now[BLOCK * count..] == before[BLOCK * count..]
  {
    assert now[BLOCK * count..] == now[p + BLOCK..][BLOCK * (count - i - 1)..];
    assert before[BLOCK * count..] == before[p + BLOCK..][BLOCK * (count - i - 1)..];
  }

  lemma {:induction false} PutEnds(before: seq<bv8>, p: nat, x: seq<bv8>, now: seq<bv8>)
    requires p + |x| <= |before| && now == Put(before, p, x)
    ensures now[..p + |x|] == before[..p] + x
  {
  }

  // ----- the command

  /** The first five bytes of the command that asks for blocks from a sector on. */
  function Command(sector: bv64): (s: seq<bv8>)
    ensures |s| == 5
  {
    [0x40 | 18, SectorByte(sector >> 24), SectorByte(sector >> 16), SectorByte(sector >> 8), SectorByte(sector)]
  }

  /** The command number, and the low 32 bits of the sector, the highest first. */
  lemma {:induction false} CommandCarriesSector(sector: bv64)
    ensures var s := Command(sector);
            && s[0] == 0x52
            && ((s[1] as bv64) << 24) | ((s[2] as bv64) << 16) | ((s[3] as bv64) << 8) | (s[4] as bv64)
               == sector & 0xffff_ffff
  {
    hide Command;
    CommandIs(sector);
  }

  lemma {:induction false} CommandIs(sector: bv64)
    ensures Command(sector) == [0x52, SectorByte(sector >> 24), SectorByte(sector >> 16), SectorByte(sector >> 8),
                                SectorByte(sector)]
  {
    hide SectorByte;
  }

  function SectorByte(x: bv64): bv8 {
    (x & 0xff) as bv8
  }

  /** The sixth byte, as disk_read computes it. */
  method CommandChecksum(sector: bv64) returns (crc: bv8)
    ensures GfByte.Value(crc) == 2 * Remainder(Stream(Command(sector)), 7, 0x89) + 1
  {
    hide *;
    C7.GeneratorIs();
    crc := 0;
    crc := C7.ByteStep(crc, 0x40 | 18);
    crc := C7.ByteStep(crc, SectorByte(sector >> 24));
    crc := C7.ByteStep(crc, SectorByte(sector >> 16));
    crc := C7.ByteStep(crc, SectorByte(sector >> 8));
    crc := C7.ByteStep(crc, SectorByte(sector));
    FiveSteps(sector, crc);
    C7.RegisterIsRemainder(Command(sector));
    EndBit(crc);
    crc := crc | 1;
  }

  lemma {:induction false} FiveSteps(sector: bv64, crc: bv8)
    requires var c := C7.ByteStep(C7.ByteStep(0, 0x40 | 18), SectorByte(sector >> 24));
             crc == C7.ByteStep(C7.ByteStep(C7.ByteStep(c, SectorByte(sector >> 16)), SectorByte(sector >> 8)),
                                SectorByte(sector))
    ensures crc == C7.Register(Command(sector))
  {
    hide C7.ByteStep, SectorByte;
    var s := Command(sector);
    assert s[..5] == s && s[..4][..3] == s[..3] && s[..3][..2] == s[..2] && s[..2][..1] == s[..1] && s[..1][..0] == [];
    assert C7.Register(s[..1]) == C7.ByteStep(0, 0x40 | 18);
    assert C7.Register(s[..2]) == C7.ByteStep(C7.Register(s[..1]), s[1]);
    assert C7.Register(s[..3]) == C7.ByteStep(C7.Register(s[..2]), s[2]);
    assert C7.Register(s[..4]) == C7.ByteStep(C7.Register(s[..3]), s[3]);
  }

  lemma {:induction false} EndBit(crc: bv8)
    requires crc & 1 == 0
    ensures GfByte.Value(crc | 1) == GfByte.Value(crc) + 1
  {
    hide GfByte.Value;
    GfByte.Split(crc);
    GfByte.Split(crc | 1);
    SetLowBit(crc);
  }

  lemma {:induction false} SetLowBit(crc: bv8)
    ensures (crc | 1) >> 1 == crc >> 1 && (crc | 1) & 1 == 1
  {
  }
}
