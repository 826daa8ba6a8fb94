/**
 * A room's sequence numbers and its ring buffer of recent messages, bounded by a count and by a
 * byte total, and the answer given to a reconnecting client. The size of an entry's JSON text is
 * the parameter `size`.
 */
module Replay {
  import opened Wrappers

  datatype Entry = Entry(seqNo: nat, messageId: string, payload: string, timestamp: int)
  datatype Draft = Draft(messageId: string, payload: string, timestamp: int)
  datatype Bounds = Bounds(ringBufferSize: nat, maxBufferBytes: nat)
  datatype Log = Log(issued: nat, buffer: seq<Entry>, bytes: int)
  datatype Answer =
    | ReplayComplete
    | ReplayMessages(messages: seq<Entry>, currentSeq: nat)
    | ReplayGap(fromSeq: int, currentSeq: nat)

  const NO_LOG: Log := Log(0, [], 0)

  function Total(size: Entry -> nat, es: seq<Entry>): nat {
    if es == [] then 0 else size(es[0]) + Total(size, es[1..])
  }

  predicate Fits(size: Entry -> nat, b: Bounds, es: seq<Entry>) {
    |es| <= b.ringBufferSize && Total(size, es) <= b.maxBufferBytes
  }

  // What is left when entries are dropped from the front until the rest fits.
  function Evict(size: Entry -> nat, b: Bounds, es: seq<Entry>): seq<Entry> {
    if es == [] || Fits(size, b, es) then es else Evict(size, b, es[1..])
  }

  function Stamp(log: Log, d: Draft): Entry {
    Entry(log.issued + 1, d.messageId, d.payload, d.timestamp)
  }

  function Publish(size: Entry -> nat, b: Bounds, log: Log, d: Draft): Log {
    var kept := Evict(size, b, log.buffer + [Stamp(log, d)]);
    Log(log.issued + 1, kept, Total(size, kept))
  }

  function PublishAll(size: Entry -> nat, b: Bounds, ds: seq<Draft>): Log {
    if ds == [] then NO_LOG else Publish(size, b, PublishAll(size, b, ds[..|ds| - 1]), ds[|ds| - 1])
  }

  // Every message ever sequenced in the room.
  function History(ds: seq<Draft>): seq<Entry> {
    seq(|ds|, i requires 0 <= i < |ds| => Entry(i + 1, ds[i].messageId, ds[i].payload, ds[i].timestamp))
  }

  function ReplayFrom(lastSeq: int, highestAcked: Option<int>): int {
    if highestAcked.Some? && highestAcked.value >= 0 then highestAcked.value else lastSeq
  }

  function After(es: seq<Entry>, from: int): seq<Entry> {
    if es == [] then [] else (if es[0].seqNo > from then [es[0]] else []) + After(es[1..], from)
  }

  function Reconnect(log: Log, lastSeq: int, highestAcked: Option<int>): Answer {
    var from := ReplayFrom(lastSeq, highestAcked);
    if from == log.issued then ReplayComplete
    else if |log.buffer| > 0 && from >= log.buffer[0].seqNo - 1 && from < log.issued then
      ReplayMessages(After(log.buffer, from), log.issued)
    else ReplayGap(if |log.buffer| > 0 then log.buffer[0].seqNo else log.issued, log.issued)
  }

  predicate Buffered(buffer: seq<Entry>, n: int) {
    exists e <- buffer :: e.seqNo == n
  }

  // ---- the buffer --------------------------------------------------------------------

  lemma {:induction false} TotalSnoc(size: Entry -> nat, es: seq<Entry>, e: Entry)
    ensures Total(size, es + [e]) == Total(size, es) + size(e)
  {
    if es == [] {
      assert es + [e] == [e] && [e][1..] == [];
    } else {
      assert (es + [e])[1..] == es[1..] + [e];
      TotalSnoc(size, es[1..], e);
    }
  }

  // Eviction keeps the longest suffix within both bounds.
  lemma {:induction false} EvictLongest(size: Entry -> nat, b: Bounds, es: seq<Entry>)
    ensures
      var kept := Evict(size, b, es);
      var k := |es| - |kept|;
      k >= 0 && kept == es[k..] && Fits(size, b, kept) && forall j | 0 <= j < k :: !Fits(size, b, es[j..])
  {
    if es != [] && !Fits(size, b, es) {
      EvictLongest(size, b, es[1..]);
      var k := |es| - |Evict(size, b, es)|;
      assert es[1..][k - 1..] == es[k..];
      forall j | 0 <= j < k ensures !Fits(size, b, es[j..]) {
        if j == 0 {
          assert es[0..] == es;
        } else {
          assert es[1..][j - 1..] == es[j..];
        }
      }
    } else {
      assert es[0..] == es;
    }
  }

  // Evicting message by message loses nothing against evicting once from the whole history.
  lemma {:induction false} EvictIncremental(size: Entry -> nat, b: Bounds, h: seq<Entry>, e: Entry)
    ensures Evict(size, b, Evict(size, b, h) + [e]) == Evict(size, b, h + [e])
  {
    if h != [] && !Fits(size, b, h) {
      TotalSnoc(size, h, e);
      assert (h + [e])[1..] == h[1..] + [e];
      EvictIncremental(size, b, h[1..], e);
    }
  }

  // After any run of broadcasts the room has issued one number per message, and its buffer is
  // the longest run of the newest messages within both bounds, with its exact byte total.
  lemma {:induction false} BufferIsNewest(size: Entry -> nat, b: Bounds, ds: seq<Draft>)
    ensures
      var log := PublishAll(size, b, ds);
      var k := |ds| - |log.buffer|;
      log.issued == |ds| && k >= 0 && log.buffer == History(ds)[k..]
      && log.bytes == Total(size, log.buffer) && Fits(size, b, log.buffer)
      && forall j | 0 <= j < k :: !Fits(size, b, History(ds)[j..])
    ensures
      var log := PublishAll(size, b, ds);
      var k := |ds| - |log.buffer|;
      (forall i | 0 <= i < |log.buffer| ::
         log.buffer[i].seqNo == k + i + 1 && log.buffer[i].messageId == ds[k + i].messageId
         && log.buffer[i].payload == ds[k + i].payload && log.buffer[i].timestamp == ds[k + i].timestamp)
      && |log.buffer| <= b.ringBufferSize && log.bytes <= b.maxBufferBytes
      && (k > 0 ==> |log.buffer| == b.ringBufferSize || log.bytes + size(History(ds)[k - 1]) > b.maxBufferBytes)
  {
    BufferIsEviction(size, b, ds);
    EvictLongest(size, b, History(ds));
    var k := |ds| - |PublishAll(size, b, ds).buffer|;
    if k > 0 {
      assert !Fits(size, b, History(ds)[k - 1..]);
      assert History(ds)[k - 1..][1..] == History(ds)[k..];
    }
  }

  lemma {:induction false} BufferIsEviction(size: Entry -> nat, b: Bounds, ds: seq<Draft>)
    ensures PublishAll(size, b, ds)
         == Log(|ds|, Evict(size, b, History(ds)), Total(size, Evict(size, b, History(ds))))
  {
    if ds != [] {
      var n := |ds| - 1;
      BufferIsEviction(size, b, ds[..n]);
      var log := PublishAll(size, b, ds[..n]);
      EvictIncremental(size, b, History(ds[..n]), Stamp(log, ds[n]));
      assert History(ds[..n]) + [Stamp(log, ds[n])] == History(ds);
    }
  }

  // ---- reconnecting ------------------------------------------------------------------

  // Filtering consecutive numbers by "greater than" cuts a suffix.
  lemma {:induction false} AfterIsSuffix(es: seq<Entry>, first: nat, from: int)
    requires forall i | 0 <= i < |es| :: es[i].seqNo == first + i
    ensures first - 1 <= from < first + |es| ==> After(es, from) == es[from + 1 - first..]
    ensures from < first ==> After(es, from) == es
    decreases |es|
  {
    if es != [] {
      AfterIsSuffix(es[1..], first + 1, from);
      assert es == [es[0]] + es[1..];
      if first <= from < first + |es| {
        assert es[1..][from + 1 - (first + 1)..] == es[from + 1 - first..];
      }
    }
  }

  // The log keeps the last messages of the history h.
  ghost predicate Keeps(log: Log, h: seq<Entry>) {
    log.issued == |h| && |log.buffer| <= |h| && log.buffer == h[|h| - |log.buffer|..]
    && forall i | 0 <= i < |h| :: h[i].seqNo == i + 1
  }

  lemma KeepsNumbers(log: Log, h: seq<Entry>)
    requires Keeps(log, h)
    ensures forall i | 0 <= i < |log.buffer| :: log.buffer[i].seqNo == |h| - |log.buffer| + 1 + i
  {
  }

  lemma ReplayIff(log: Log, h: seq<Entry>, lastSeq: int, highestAcked: Option<int>)
    requires Keeps(log, h)
    ensures
      var from := ReplayFrom(lastSeq, highestAcked);
      Reconnect(log, lastSeq, highestAcked).ReplayMessages?
      <==> from < |h| && forall i | from < i <= |h| :: Buffered(log.buffer, i)
  {
    var from, k := ReplayFrom(lastSeq, highestAcked), |h| - |log.buffer|;
    KeepsNumbers(log, h);
    if from < |h| { CoveredIff(log.buffer, k, |h|, from); }
  }

  lemma ReplayIsMissing(log: Log, h: seq<Entry>, lastSeq: int, highestAcked: Option<int>)
    requires Keeps(log, h) && Reconnect(log, lastSeq, highestAcked).ReplayMessages?
    ensures
      var from := ReplayFrom(lastSeq, highestAcked);
      0 <= from < |h| && Reconnect(log, lastSeq, highestAcked) == ReplayMessages(h[from..], |h|)
  {
    var from, k := ReplayFrom(lastSeq, highestAcked), |h| - |log.buffer|;
    KeepsNumbers(log, h);
    AfterIsSuffix(log.buffer, k + 1, from);
    assert h[k..][from - k..] == h[from..];
  }

  // A reconnecting client that has everything is told so; one whose missing messages are all
  // still buffered gets exactly those, in order; any other is told of a gap.
  lemma ReconnectExact(size: Entry -> nat, b: Bounds, ds: seq<Draft>, lastSeq: int, highestAcked: Option<int>)
    ensures
      var log, h, n := PublishAll(size, b, ds), History(ds), |ds|;
      var from := if highestAcked.Some? && highestAcked.value >= 0 then highestAcked.value else lastSeq;
      var answer := Reconnect(log, lastSeq, highestAcked);
      (answer.ReplayComplete? <==> from == n)
      && (answer.ReplayMessages? <==> from < n && forall i | from < i <= n :: Buffered(log.buffer, i))
      && (answer.ReplayMessages? ==> 0 <= from < n && answer == ReplayMessages(h[from..], n) && h[..from] + answer.messages == h)
      && (answer.ReplayGap? ==> answer == ReplayGap(if log.buffer == [] then n else n - |log.buffer| + 1, n))
  {
    var log, h, from := PublishAll(size, b, ds), History(ds), ReplayFrom(lastSeq, highestAcked);
    BufferIsNewest(size, b, ds);
    assert Keeps(log, h);
    hide PublishAll, History, After, Buffered, Fits, Total;
    ReplayIff(log, h, lastSeq, highestAcked);
    EdgesExact(log, h, lastSeq, highestAcked);
    hide Keeps;
    if Reconnect(log, lastSeq, highestAcked).ReplayMessages? {
      ReplayIsMissing(log, h, lastSeq, highestAcked);
      hide Reconnect;
      assert h[..from] + h[from..] == h;
    }
  }

  lemma EdgesExact(log: Log, h: seq<Entry>, lastSeq: int, highestAcked: Option<int>)
    requires Keeps(log, h)
    ensures
      var n, answer := |h|, Reconnect(log, lastSeq, highestAcked);
      (answer.ReplayComplete? <==> ReplayFrom(lastSeq, highestAcked) == n)
      && (answer.ReplayGap? ==> answer == ReplayGap(if log.buffer == [] then n else n - |log.buffer| + 1, n))
  {
    KeepsNumbers(log, h);
    hide After;
  }

  lemma CoveredIff(buffer: seq<Entry>, k: nat, n: nat, from: int)
    requires n == k + |buffer| && from < n
    requires forall i | 0 <= i < |buffer| :: buffer[i].seqNo == k + 1 + i
    ensures (forall i | from < i <= n :: Buffered(buffer, i)) <==> from >= k
  {
    if from >= k {
      forall i | from < i <= n ensures Buffered(buffer, i) {
        assert buffer[i - k - 1] in buffer;
      }
    } else {
      assert !Buffered(buffer, k) && from < k <= n;
    }
  }
}
