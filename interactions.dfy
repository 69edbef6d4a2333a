/**
 * Interaction lookup of src/obtener_interacciones.py: the STRING network
 * reply is read as edge records, the distinct endpoint ids are sent to an
 * id-mapping conversion, and every record is rewritten into a pair whose
 * sides are the converted ids where the mapping knows them.
 */
module Interactions {
  import opened Common

  /** One edge object of the STRING `network` reply. */
  datatype EdgeRecord = EdgeRecord(stringIdA: string, stringIdB: string)

  /**
   * The STRING request: `Failed` when `requests` raised a
   * `RequestException` (connection error, or an HTTP error status through
   * `raise_for_status`), otherwise the decoded edge records.
   */
  datatype NetworkReply = Failed | Received(records: seq<EdgeRecord>)

  /** `obtener_interacciones` returns a list of pairs or raises `AttributeError`. */
  datatype Lookup = Interactions(pairs: seq<Pair>) | AttributeError

  // ---------------------------------------------------------------------
  // convertir_a_uniprot, as a function of the replies it receives
  // ---------------------------------------------------------------------

  /** The job submission: raised, or answered with a status and a `jobId`. */
  datatype SubmitReply = SubmitRaised | SubmitAnswered(status: int, jobId: Option<string>)

  /** The single status poll of the job. */
  datatype StatusReply = StatusRaised | StatusAnswered(status: int)

  /**
   * `convertir_a_uniprot`. Every error path (status other than 200, a
   * missing or empty `jobId`, a 404 poll, a `RequestException`) returns
   * `{}`; when none is taken the function falls off its end and returns
   * `None`. It never returns a non-empty mapping.
   */
  function ConvertToUniprot(submit: SubmitReply, poll: StatusReply): (r: Option<map<string, string>>)
    ensures r.Some? ==> r.value == map[]
    ensures r.None? <==>
      && submit.SubmitAnswered? && submit.status == 200
      && submit.jobId.Some? && submit.jobId.value != ""
      && poll.StatusAnswered? && poll.status != 404
  {
    match submit
    case SubmitRaised => Some(map[])
    case SubmitAnswered(status, jobId) =>
      if status != 200 then Some(map[])
      else if jobId.None? || jobId.value == "" then Some(map[])
      else
        match poll
        case StatusRaised => Some(map[])
        case StatusAnswered(pollStatus) => if pollStatus == 404 then Some(map[]) else None
  }

  // ---------------------------------------------------------------------
  // Specification of the rewriting
  // ---------------------------------------------------------------------

  /** Every id that appears on either side of some record. */
  function Endpoints(records: seq<EdgeRecord>): set<string> {
    (set k | 0 <= k < |records| :: records[k].stringIdA) + (set k | 0 <= k < |records| :: records[k].stringIdB)
  }

  /** `mapeo_ids.get(id, id)`. */
  function Resolve(mapping: map<string, string>, id: string): string {
    if id in mapping then mapping[id] else id
  }

  /** The pairs the rewrite loop appends, one per record, in record order. */
  function RewritePairs(records: seq<EdgeRecord>, mapping: map<string, string>): seq<Pair> {
    if records == [] then []
    else
      var last := records[|records| - 1];
      RewritePairs(records[..|records| - 1], mapping) + [(Resolve(mapping, last.stringIdA), Resolve(mapping, last.stringIdB))]
  }

  /** The records as raw `(stringId_A, stringId_B)` pairs. */
  function RawPairs(records: seq<EdgeRecord>): (r: seq<Pair>)
    ensures |r| == |records|
    ensures forall k :: 0 <= k < |r| ==> r[k].0 in Endpoints(records) && r[k].1 in Endpoints(records)
  {
    seq(|records|, k requires 0 <= k < |records| => (records[k].stringIdA, records[k].stringIdB))
  }

  /**
   * What the lookup yields once the records are known and the conversion has
   * answered: an empty record list gives `[]` whatever the conversion did; a
   * `None` conversion makes the first `.get` raise.
   */
  function Rewrite(records: seq<EdgeRecord>, conversion: Option<map<string, string>>): Lookup {
    if records == [] then Interactions([])
    else if conversion.None? then AttributeError
    else Interactions(RewritePairs(records, conversion.value))
  }

  /**
   * One pair per record, same order, duplicates kept; each side is the
   * mapped id when the mapping has the key and the original id otherwise.
   */
  lemma {:induction false} RewritePairsAt(records: seq<EdgeRecord>, mapping: map<string, string>)
    ensures |RewritePairs(records, mapping)| == |records|
    ensures forall k :: 0 <= k < |records| ==>
      RewritePairs(records, mapping)[k] == (Resolve(mapping, records[k].stringIdA), Resolve(mapping, records[k].stringIdB))
  {
    if records != [] {
      var init := records[..|records| - 1];
      RewritePairsAt(init, mapping);
      forall k | 0 <= k < |records| - 1 ensures records[k] == init[k] { }
    }
  }

  /** Rewriting a concatenation rewrites each block in place: no reordering. */
  lemma {:induction false} RewritePairsAppend(a: seq<EdgeRecord>, b: seq<EdgeRecord>, mapping: map<string, string>)
    ensures RewritePairs(a + b, mapping) == RewritePairs(a, mapping) + RewritePairs(b, mapping)
    decreases |b|
  {
    if b == [] {
      assert a + b == a;
    } else {
      var b' := b[..|b| - 1];
      assert (a + b)[..|a + b| - 1] == a + b';
      RewritePairsAppend(a, b', mapping);
    }
  }

  /** With an empty mapping the pairs are the raw record ids. */
  lemma EmptyMappingKeepsIds(records: seq<EdgeRecord>)
    ensures RewritePairs(records, map[]) == RawPairs(records)
  {
  }

  /** With every endpoint known to the mapping, no original id survives a lookup. */
  lemma FullMappingReplacesIds(records: seq<EdgeRecord>, mapping: map<string, string>)
    requires Endpoints(records) <= mapping.Keys
    ensures |RewritePairs(records, mapping)| == |records|
    ensures forall k :: 0 <= k < |records| ==>
      RewritePairs(records, mapping)[k] == (mapping[records[k].stringIdA], mapping[records[k].stringIdB])
  {
  }

  /**
   * With the conversion of this file, a non-empty reply is either returned
   * with its ids untouched (an error path gave `{}`) or ends in
   * `AttributeError` (the conversion fell through to `None`).
   */
  lemma WithUniprotConversion(records: seq<EdgeRecord>, submit: SubmitReply, poll: StatusReply)
    ensures var r := Rewrite(records, ConvertToUniprot(submit, poll));
      && (records == [] ==> r == Interactions([]))
      && (records != [] && ConvertToUniprot(submit, poll).None? ==> r == AttributeError)
      && (records != [] && ConvertToUniprot(submit, poll).Some? ==> r == Interactions(RawPairs(records)))
  {
    EmptyMappingKeepsIds(records);
  }

  // ---------------------------------------------------------------------
  // The loops of obtener_interacciones
  // ---------------------------------------------------------------------

  /** The id-collection loop: both endpoints of every record, into a set. */
  method CollectIds(records: seq<EdgeRecord>) returns (ids: set<string>)
    ensures ids == Endpoints(records)
  {
    ids := {};
    for i := 0 to |records|
      invariant ids == Endpoints(records[..i])
    {
      var prefix, next := records[..i], records[..i + 1];
      assert next == prefix + [records[i]];
      assert Endpoints(next) == Endpoints(prefix) + {records[i].stringIdA, records[i].stringIdB} by {
        forall x | x in Endpoints(next) ensures x in Endpoints(prefix) + {records[i].stringIdA, records[i].stringIdB} {
          var k :| 0 <= k < |next| && (x == next[k].stringIdA || x == next[k].stringIdB);
          if k < i { assert next[k] == prefix[k]; }
        }
        forall x | x in Endpoints(prefix) ensures x in Endpoints(next) {
          var k :| 0 <= k < |prefix| && (x == prefix[k].stringIdA || x == prefix[k].stringIdB);
          assert prefix[k] == next[k];
        }
        assert next[i] == records[i];
      }
      ids := ids + {records[i].stringIdA};
      ids := ids + {records[i].stringIdB};
    }
    assert records[..|records|] == records;
  }

  /**
   * `obtener_interacciones`. `convert` stands for `convertir_a_uniprot`:
   * it receives the collected ids and answers a mapping or `None`. A failed
   * STRING request gives `[]`, never an exception.
   */
  method FetchInteractions(reply: NetworkReply, convert: set<string> -> Option<map<string, string>>)
    returns (r: Lookup)
    ensures reply.Failed? ==> r == Interactions([])
    ensures reply.Received? ==> r == Rewrite(reply.records, convert(Endpoints(reply.records)))
  {
    if reply.Failed? {
      return Interactions([]);
    }
    var records := reply.records;
    var ids := CollectIds(records);
    var conversion := convert(ids);
    var pairs: seq<Pair> := [];
    for i := 0 to |records|
      invariant conversion.Some? || i == 0
      invariant conversion.Some? ==> pairs == RewritePairs(records[..i], conversion.value)
    {
      if conversion.None? {
        return AttributeError;
      }
      var mapping := conversion.value;
      var a := if records[i].stringIdA in mapping then mapping[records[i].stringIdA] else records[i].stringIdA;
      var b := if records[i].stringIdB in mapping then mapping[records[i].stringIdB] else records[i].stringIdB;
      assert records[..i + 1][..i] == records[..i];
      pairs := pairs + [(a, b)];
    }
    if conversion.None? {
      return Interactions([]);
    }
    assert records[..|records|] == records;
    return Interactions(pairs);
  }
}
