/** How the pieces meet: the request the invitation page posts, what the
    server stores for it, and what the dashboard then counts. */
module EndToEnd {
  import opened Js
  import opened Kv
  import opened Keys
  import opened Server
  import opened Invitation
  import opened Admin

  /** The body `handleYes` posts always passes validation (an ISO time string
      is never empty), and is stored as answer `yes` with the empty message. */
  lemma YesRequestAccepted(isoNow: string)
    requires isoNow != ""
    ensures ReadSubmission(Parsed(YesRequestBody(isoNow)))
      == Accepted(Record(Str("yes"), Str(""), Str(isoNow)))
  {
  }

  /** The dashboard counts a response submitted from the invitation page as a
      `yes`, on top of what it counted before. */
  lemma YesAddsToYesCount(responses: seq<Entry<Record>>, key: string, isoNow: string)
    ensures var s := ComputeStats(responses);
      var s' := ComputeStats([Entry(key, Record(Str("yes"), Str(""), Str(isoNow)))] + responses);
      s' == Stats(s.yes + 1, s.no, s.maybe)
  {
  }

  /** Submitting `{answer: "yes", message: "", timestamp}` to an empty store
      and listing gives back exactly that one record; a body without a
      timestamp is refused and the listing stays empty. */
  method SubmitThenList(timestamp: string, now: nat, suffix: string, parse: JsValue -> int)
    returns (missing: Reply<string>, before: Reply<seq<Entry<Record>>>,
             reply: Reply<string>, after: Reply<seq<Entry<Record>>>)
    requires timestamp != ""
    ensures missing == ClientError(MISSING_FIELDS) && before == Success([])
    ensures reply == Success(MintKey(now, suffix))
    ensures after == Success([Entry(MintKey(now, suffix), Record(Str("yes"), Str(""), Str(timestamp)))])
  {
    var store := new KvStore<Record>();
    missing := Submit(store, Parsed(Obj(map["answer" := Str("yes")])), now, suffix, None);
    before := List(store, parse, None);
    assert Scan(store.entries, PREFIX) == map[];
    ListingLength(before.value, map[]);

    var key := MintKey(now, suffix);
    var record := Record(Str("yes"), Str(""), Str(timestamp));
    reply := Submit(store, Parsed(YesRequestBody(timestamp)), now, suffix, None);
    assert store.entries == map[key := record];
    assert Scan(store.entries, PREFIX) == map[key := record];
    after := List(store, parse, None);
    SingletonListing(after.value, key, record);
  }

  /** Two submissions in the same millisecond with different suffixes land
      under two different keys, so neither overwrites the other. */
  lemma SameMillisecondNoCollision(now: nat, suffix1: string, suffix2: string)
    requires suffix1 != suffix2
    ensures MintKey(now, suffix1) != MintKey(now, suffix2)
  {
    if MintKey(now, suffix1) == MintKey(now, suffix2) {
      MintKeyInjective(now, suffix1, now, suffix2);
    }
  }
}
