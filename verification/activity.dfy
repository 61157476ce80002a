/** The activity log of an account: at most five human-readable entries,
    most recent first, and the shortening of trade descriptions. */
module Activity {

  import opened Seqs

  /** Display colour of an entry: green for money or coins coming in
      (deposit, sell), red for going out (withdrawal, buy). */
  datatype Color = Green | Red

  datatype Entry = Entry(desc: string, color: Color)

  /** The log keeps this many entries. */
  const MaxEntries: nat := 5

  /** Trade descriptions longer than this are shortened. */
  const MaxDesc: nat := 30

  /** A shortened description keeps this many leading characters. */
  const KeptChars: nat := 27

  /** The single character (U+2026) appended to a shortened description. */
  const Ellipsis: char := '\U{2026}'

  /** `insert(0, e)` followed by one `pop()` when the list has grown past
      five: the new entry comes first, then a prefix of the old log. */
  function Record(log: seq<Entry>, e: Entry): (r: seq<Entry>)
    ensures |r| >= 1 && r[0] == e
    ensures r[1..] <= log
    ensures |r| == if |log| < MaxEntries then |log| + 1 else |log|
    ensures |log| <= MaxEntries ==> |r| <= MaxEntries
  {
    var grown := [e] + log;
    if |grown| > MaxEntries then grown[..|grown| - 1] else grown
  }

  /** Records `es` one after another, first element first. */
  function RecordAll(log: seq<Entry>, es: seq<Entry>): seq<Entry>
    decreases |es|
  {
    if es == [] then log else RecordAll(Record(log, es[0]), es[1..])
  }

  function Min(a: int, b: int): int {
    if a <= b then a else b
  }

  /** Starting from a log of at most five entries, the log after any number
      of insertions holds exactly the five (or fewer) most recent entries,
      most recent first. */
  lemma {:induction false} RecordAllKeepsMostRecent(log: seq<Entry>, es: seq<Entry>)
    requires |log| <= MaxEntries
    ensures RecordAll(log, es) == (Reverse(es) + log)[..Min(MaxEntries, |es| + |log|)]
    decreases |es|
  {
    if es != [] {
      var e := es[0];
      var log' := Record(log, e);
      RecordAllKeepsMostRecent(log', es[1..]);
      var m := Min(MaxEntries, |es| + |log|);
      var lhs := (Reverse(es[1..]) + log')[..Min(MaxEntries, |es| - 1 + |log'|)];
      var rhs := (Reverse(es) + log)[..m];
      assert Reverse(es) == Reverse(es[1..]) + [e];
      assert |lhs| == m;
      forall i | 0 <= i < m
        ensures lhs[i] == rhs[i]
      {
        var n := |es| - 1;
        if i < n {
          assert lhs[i] == Reverse(es[1..])[i];
          assert rhs[i] == Reverse(es[1..])[i];
        } else if i == n {
          assert lhs[i] == log'[0];
        } else {
          assert lhs[i] == log'[i - n];
          assert log'[i - n] == log'[1..][i - n - 1];
          assert log'[1..][i - n - 1] == log[i - n - 1];
        }
      }
    }
  }

  /** `msg if len(msg) <= 30 else msg[:27] + "…"`. */
  function Truncate(msg: string): (r: string)
    ensures |r| <= MaxDesc
    ensures r == msg <==> |msg| <= MaxDesc
    ensures r != msg ==> |r| == KeptChars + 1 && r[..KeptChars] == msg[..KeptChars] && r[KeptChars] == Ellipsis
  {
    if |msg| <= MaxDesc then msg else msg[..KeptChars] + [Ellipsis]
  }

  /** A stored description is never shortened again. */
  lemma TruncateIdempotent(msg: string)
    ensures Truncate(Truncate(msg)) == Truncate(msg)
  {
  }
}
