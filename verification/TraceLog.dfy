/** The mutable ResolutionTrace (models.py): append and verify_hash_chain as the source runs them. */
module TraceLog {
  import opened Prelude
  import opened Records

  class ResolutionTrace {
    const envelope: Envelope
    var revision: int
    var entries: seq<Entry>

    function Value(): Trace
      reads this
    {
      Trace(envelope, revision, entries)
    }

    /** clone(): a private copy a caller may append to. */
    constructor Clone(t: Trace)
      ensures Value() == t
    {
      envelope, revision, entries := t.envelope, t.revision, t.entries;
    }

    method Append(h: Hash, stage: string, message: string, details: Details, at: int)
      modifies this
      ensures Value() == Appended(h, old(Value()), stage, message, details, at)
    {
      revision := revision + 1;
      var previousHash := LastHash(entries);
      var entry := Entry(revision, stage, message, details, at, previousHash, "");
      entries := entries + [entry.(entryHash := EntrySha(h, entry))];
    }

    /** verify_hash_chain: the running previous hash sees exactly the chains ChainOk describes. */
    method VerifyHashChain(h: Hash) returns (ok: bool)
      ensures ok <==> ChainOk(h, Value())
    {
      if revision != |entries| {
        return false;
      }
      var previousHash, i := "", 0;
      while i < |entries|
        invariant 0 <= i <= |entries|
        invariant previousHash == LastHash(entries[..i])
        invariant forall j :: 0 <= j < i ==> LinkOk(h, entries, j)
      {
        var entry := entries[i];
        if entry.revision != i + 1 || entry.previousHash != previousHash || entry.entryHash != EntrySha(h, entry) {
          assert !LinkOk(h, entries, i);
          return false;
        }
        previousHash := entry.entryHash;
        i := i + 1;
      }
      return true;
    }
  }
}
