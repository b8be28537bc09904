/** The persistent index as the tool sees it: a byte-keyed map whose missing
    keys read as empty, written first-write-wins from a queue of records. */
module Store {
  import opened Encoding

  type Storage = map<Bytes, Bytes>

  /** One queued (key, value) pair. */
  datatype Record = Record(key: Bytes, value: Bytes)

  /** storage.Get(key).ToArray(): the stored bytes, empty when absent. */
  function Get(s: Storage, key: Bytes): Bytes
  {
    if key in s then s[key] else []
  }

  /** One dequeued record: written only when the key reads as empty. */
  function PutIfEmpty(s: Storage, r: Record): (s': Storage)
    ensures |Get(s, r.key)| == 0 ==> Get(s', r.key) == r.value
    ensures forall k :: k != r.key || |Get(s, k)| > 0 ==> Get(s', k) == Get(s, k)
  {
    if |Get(s, r.key)| == 0 then s[r.key := r.value] else s
  }

  /** The store after every record of the queue, in queue order. */
  function Drain(s: Storage, q: seq<Record>): Storage
    decreases |q|
  {
    if q == [] then s else Drain(PutIfEmpty(s, q[0]), q[1..])
  }

  /** The first non-empty value queued for a key, or empty. */
  function FirstValue(q: seq<Record>, key: Bytes): Bytes
  {
    if q == [] then []
    else if q[0].key == key && |q[0].value| > 0 then q[0].value
    else FirstValue(q[1..], key)
  }

  /** What a key reads after draining: its old value when it had one
      (nothing is overwritten), else the first non-empty value queued for it. */
  lemma {:induction false} DrainReads(s: Storage, q: seq<Record>, key: Bytes)
    ensures Get(Drain(s, q), key) == if |Get(s, key)| > 0 then Get(s, key) else FirstValue(q, key)
    decreases |q|
  {
    if q != [] {
      DrainReads(PutIfEmpty(s, q[0]), q[1..], key);
    }
  }

  /** A key holding a value keeps it, whatever is queued. */
  lemma NoOverwrite(s: Storage, q: seq<Record>, key: Bytes)
    requires |Get(s, key)| > 0
    ensures Get(Drain(s, q), key) == Get(s, key)
  {
    DrainReads(s, q, key);
  }

  /** Indexing the same records a second time changes nothing a reader sees. */
  lemma DrainIdempotent(s: Storage, q: seq<Record>, key: Bytes)
    ensures Get(Drain(Drain(s, q), q), key) == Get(Drain(s, q), key)
  {
    DrainReads(s, q, key);
    DrainReads(Drain(s, q), q, key);
  }

  /** A key that reads as empty and is queued with a non-empty value reads,
      once drained, the first such value queued for it. */
  lemma {:induction false} FirstWriteWins(s: Storage, q: seq<Record>, i: nat)
    requires i < |q| && |q[i].value| > 0 && |Get(s, q[i].key)| == 0
    requires forall j :: 0 <= j < i && q[j].key == q[i].key ==> |q[j].value| == 0
    ensures Get(Drain(s, q), q[i].key) == q[i].value
  {
    DrainReads(s, q, q[i].key);
    FirstValueAt(q, i);
  }

  lemma {:induction false} FirstValueAt(q: seq<Record>, i: nat)
    requires i < |q| && |q[i].value| > 0
    requires forall j :: 0 <= j < i && q[j].key == q[i].key ==> |q[j].value| == 0
    ensures FirstValue(q, q[i].key) == q[i].value
  {
    if i > 0 {
      FirstValueAt(q[1..], i - 1);
    }
  }
}
