/** The periodic stream writer of tcp-large-transfer.cc, resumed by callbacks with arbitrary buffer space. */
module StreamWriter {

  const TOTAL_TX_BYTES: nat := 2000000
  const WRITE_SIZE: nat := 1040

  /** The k-th byte of the stream. */
  function PatternByte(k: nat): nat {
    97 + k % 26
  }

  function Pattern(n: nat): (s: seq<nat>)
    ensures |s| == n
  {
    seq(n, k requires 0 <= k < n => PatternByte(k))
  }

  /** Writing at any point of the stream continues the period, because 26 divides the buffer size. */
  lemma PeriodContinues(current: nat, j: nat)
    ensures PatternByte(current % WRITE_SIZE + j) == PatternByte(current + j)
  {
    var q := current / WRITE_SIZE;
    assert current == WRITE_SIZE * q + current % WRITE_SIZE;
    assert current + j == (current % WRITE_SIZE + j) + 26 * (40 * q);
    SamePhase(current % WRITE_SIZE + j, 40 * q);
  }

  lemma SamePhase(a: nat, q: nat)
    ensures (a + 26 * q) % 26 == a % 26
  {
  }

  /** Accepting part of the next write extends the pattern. */
  lemma PatternExtends(current: nat, amount: nat)
    requires current % WRITE_SIZE + amount <= WRITE_SIZE
    ensures var offset := current % WRITE_SIZE;
            Pattern(current) + Pattern(WRITE_SIZE)[offset..offset + amount] == Pattern(current + amount)
  {
    hide PatternByte;
    var offset := current % WRITE_SIZE;
    var piece := Pattern(WRITE_SIZE)[offset..offset + amount];
    forall k | 0 <= k < amount ensures piece[k] == Pattern(current + amount)[current + k] {
      PeriodContinues(current, k);
    }
  }

  /** What a send was offered: so many bytes, with `sent` bytes accepted before and `space` in the buffer. */
  datatype Offer = Offer(sent: nat, size: nat, space: nat)

  /** As much as the rest of `data`, the rest of the stream and the buffer space allow, and at least one byte. */
  predicate FullOffer(o: Offer) {
    && 1 <= o.size <= o.space && o.sent + o.size <= TOTAL_TX_BYTES && o.sent % WRITE_SIZE + o.size <= WRITE_SIZE
    && (o.size == o.space || o.sent + o.size == TOTAL_TX_BYTES || o.sent % WRITE_SIZE + o.size == WRITE_SIZE)
  }

  /** The simulated socket: buffer space and send results are arbitrary; it remembers what it was offered and took. */
  class Socket {
    var txAvailable: nat
    var offers: seq<Offer>
    var accepted: seq<nat>
    var refusals: nat
    var closes: nat

    constructor ()
      ensures accepted == [] && offers == [] && refusals == 0 && closes == 0
    {
      accepted, offers, refusals, closes := [], [], 0, 0;
    }

    /** A negative result refuses; a successful send takes at least one byte and at most what is offered. */
    method Send(data: array<nat>, offset: nat, toWrite: nat) returns (amount: int)
      requires offset + toWrite <= data.Length && toWrite >= 1
      modifies this`txAvailable, this`offers, this`accepted, this`refusals
      ensures offers == old(offers) + [Offer(|old(accepted)|, toWrite, old(txAvailable))]
      ensures amount < 0 || 1 <= amount <= toWrite
      ensures refusals == old(refusals) + if amount < 0 then 1 else 0
      ensures accepted == old(accepted) + if amount < 0 then [] else data[offset..offset + amount]
    {
      offers := offers + [Offer(|accepted|, toWrite, txAvailable)];
      amount := *;
      if amount == 0 || amount > toWrite {
        amount := -1;
      }
      if amount >= 0 {
        accepted := accepted + data[offset..offset + amount];
      } else {
        refusals := refusals + 1;
      }
      txAvailable := *;
    }

    method Close()
      modifies this`closes
      ensures closes == old(closes) + 1
    {
      closes := closes + 1;
    }
  }

  /** The globals of the program. */
  class Sender {
    const data: array<nat>
    const socket: Socket
    var currentTxBytes: nat

    ghost predicate Valid()
      reads this, data, socket
    {
      && data.Length == WRITE_SIZE
      && data[..] == Pattern(WRITE_SIZE)
      && currentTxBytes <= TOTAL_TX_BYTES
      && socket.accepted == Pattern(currentTxBytes)
      && forall k :: 0 <= k < |socket.offers| ==> FullOffer(socket.offers[k])
    }

    /** The buffer fill loop of `main`. */
    constructor (socket: Socket)
      requires socket.accepted == [] && socket.offers == []
      ensures this.socket == socket && Valid() && fresh(data) && currentTxBytes == 0
    {
      this.socket := socket;
      currentTxBytes := 0;
      data := new nat[WRITE_SIZE];
      new;
      for i := 0 to WRITE_SIZE
        invariant data.Length == WRITE_SIZE && fresh(data) && this.socket == socket && currentTxBytes == 0
        invariant forall k :: 0 <= k < i ==> data[k] == PatternByte(k)
        invariant socket.accepted == [] && socket.offers == []
      {
        data[i] := 97 + i % 26;
      }
    }

    /**
     * One callback: no send reads past `data`, the count of bytes sent never passes the total or goes back, and the
     * accepted bytes stay a prefix of the periodic stream. Every send offers all that the rest of `data`, the rest of
     * the stream and the buffer space allow. The callback returns without closing exactly after one
     * refused send; when it closes, everything has been sent or the buffer space has run out.
     */
    method WriteUntilBufferFull(txSpace: nat)
      requires Valid()
      modifies this`currentTxBytes, socket
      ensures Valid()
      ensures forall k :: 0 <= k < |socket.offers| ==> FullOffer(socket.offers[k])
      ensures old(currentTxBytes) <= currentTxBytes && old(socket.accepted) <= socket.accepted
      ensures socket.closes + socket.refusals == old(socket.closes) + old(socket.refusals) + 1
      ensures old(socket.closes) <= socket.closes && old(socket.refusals) <= socket.refusals
      ensures socket.closes > old(socket.closes) ==> currentTxBytes == TOTAL_TX_BYTES || socket.txAvailable == 0
      ensures old(currentTxBytes) == TOTAL_TX_BYTES ==> socket.closes > old(socket.closes)
    {
      while currentTxBytes < TOTAL_TX_BYTES && socket.txAvailable > 0
        invariant Valid() && socket.closes == old(socket.closes) && socket.refusals == old(socket.refusals)
        invariant old(currentTxBytes) <= currentTxBytes && old(socket.accepted) <= socket.accepted
        decreases TOTAL_TX_BYTES - currentTxBytes
      {
        var left := TOTAL_TX_BYTES - currentTxBytes;
        var dataOffset := currentTxBytes % WRITE_SIZE;
        var toWrite := WRITE_SIZE - dataOffset;
        toWrite := if toWrite < left then toWrite else left;
        toWrite := if toWrite < socket.txAvailable then toWrite else socket.txAvailable;
        var amountSent := socket.Send(data, dataOffset, toWrite);
        if amountSent < 0 {
          return;
        }
        PatternExtends(currentTxBytes, amountSent);
        assert data[dataOffset..dataOffset + amountSent] == data[..][dataOffset..dataOffset + amountSent];
        currentTxBytes := currentTxBytes + amountSent;
      }
      socket.Close();
    }

    method StartFlow()
      requires Valid()
      modifies this`currentTxBytes, socket
      ensures Valid() && old(currentTxBytes) <= currentTxBytes
    {
      WriteUntilBufferFull(socket.txAvailable);
    }

    /** Any number of callbacks, the buffer space changing arbitrarily in between. */
    method Transfer(callbacks: nat)
      requires Valid()
      modifies this`currentTxBytes, socket
      ensures Valid() && old(currentTxBytes) <= currentTxBytes
      ensures forall k :: 0 <= k < |socket.accepted| ==> socket.accepted[k] == 97 + k % 26
      ensures |socket.accepted| == currentTxBytes <= TOTAL_TX_BYTES
    {
      StartFlow();
      for n := 0 to callbacks
        invariant Valid() && old(currentTxBytes) <= currentTxBytes
      {
        socket.txAvailable := *;
        WriteUntilBufferFull(socket.txAvailable);
      }
    }
  }
}
