/** The bounded log of bit changes (backend/bit_edges.py). */
module BitEdges {
  import opened Bytes

  datatype Key = Key(device: string, address: int)

  datatype BitEdge = BitEdge(seqNo: nat, key: Key, value: bit, mono: real)

  // What one BitEdgeLog object holds.
  datatype Log = Log(
    edges: seq<BitEdge>,
    counter: nat,
    watched: set<Key>,
    lastMono: map<Key, real>,
    minInterval: real,
    maxlen: nat)

  // deque(maxlen) keeps the newest entries.
  function Newest<T>(items: seq<T>, maxlen: nat): (kept: seq<T>)
  {
    if |items| > maxlen then items[|items| - maxlen..] else items
  }

  function Truth(value: int): (b: bit)
  {
    if value != 0 then 1 else 0
  }

  function ArmLog(log: Log, keys: set<Key>): (armed: Log)
  {
    log.(watched := keys, edges := [], lastMono := map[])
  }

  function Stamp(log: Log, key: Key, mono: real): (stamped: real)
  {
    if log.minInterval > 0.0 && key in log.lastMono && mono < log.lastMono[key] + log.minInterval
    then log.lastMono[key] + log.minInterval
    else mono
  }

  function RecordLog(log: Log, key: Key, value: int, mono: real): (next: Log)
  {
    if key !in log.watched then log
    else
      var stamped := Stamp(log, key, mono);
      var edge := BitEdge(log.counter + 1, key, Truth(value), stamped);
      log.(lastMono := log.lastMono[key := stamped],
           counter := log.counter + 1,
           edges := Newest(log.edges + [edge], log.maxlen))
  }

  function After(edges: seq<BitEdge>, cursor: int): (found: seq<BitEdge>)
  {
    if |edges| == 0 then []
    else if edges[0].seqNo > cursor then [edges[0]] + After(edges[1..], cursor)
    else After(edges[1..], cursor)
  }

  class BitEdgeLog {
    var edges: seq<BitEdge>
    var counter: nat
    var watched: set<Key>
    var lastMono: map<Key, real>
    var minInterval: real
    const maxlen: nat

    constructor (maxlen: nat := 16384)
      ensures State() == Log([], 0, {}, map[], 0.0, maxlen)
    {
      this.maxlen := maxlen;
      edges, counter, watched, lastMono, minInterval := [], 0, {}, map[], 0.0;
    }

    ghost function State(): Log
      reads this
    {
      Log(edges, counter, watched, lastMono, minInterval, maxlen)
    }

    method Arm(keys: set<Key>) returns (cursor: nat)
      modifies this
      ensures State() == ArmLog(old(State()), keys)
      ensures cursor == counter
    {
      watched := keys;
      edges := [];
      lastMono := map[];
      cursor := counter;
    }

    method Disarm()
      modifies this
      ensures State() == ArmLog(old(State()), {})
    {
      var _ := Arm({});
    }

    method Record(key: Key, value: int, mono: real)
      modifies this
      ensures State() == RecordLog(old(State()), key, value, mono)
    {
      var b: bit := if value != 0 then 1 else 0;
      if key !in watched {
        return;
      }
      var stamped := mono;
      if minInterval > 0.0 {
        if key in lastMono && mono < lastMono[key] + minInterval {
          stamped := lastMono[key] + minInterval;
        }
      }
      lastMono := lastMono[key := stamped];
      counter := counter + 1;
      edges := edges + [BitEdge(counter, key, b, stamped)];
      if |edges| > maxlen {
        edges := edges[|edges| - maxlen..];
      }
    }

    method Take(afterSeq: int) returns (cursor: nat, found: seq<BitEdge>)
      ensures cursor == counter
      ensures found == After(edges, afterSeq)
    {
      found := [];
      for i := 0 to |edges|
        invariant found + After(edges[i..], afterSeq) == After(edges, afterSeq)
      {
        if edges[i].seqNo > afterSeq {
          found := found + [edges[i]];
        }
      }
      cursor := counter;
    }
  }
}
