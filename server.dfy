/** The backend's two HTTP handlers (`POST /response`, `GET /responses`) over
    the key-value store. The clock (`Date.now()`), the random key suffix, the
    date parser (`new Date(t).getTime()`) and store outages are inputs. */
module Server {
  import opened Js
  import opened Kv
  import opened Keys

  /** A stored response: the three fields exactly as the client sent them,
      except that a falsy message is replaced by the empty string. */
  datatype Record = Record(answer: JsValue, message: JsValue, timestamp: JsValue)

  /** The request body: either JSON that failed to parse (the parser's error
      text), or the parsed value. */
  datatype Body = Malformed(details: string) | Parsed(json: JsValue)

  /** What the handler's reply is: a success body, a 400 `{error}` or a 500
      `{error, details}`. */
  datatype Reply<T> =
    | Success(value: T)
    | ClientError(error: string)
    | ServerError(error: string, details: string)
  {
    function Status(): int {
      match this
      case Success(_) => 200
      case ClientError(_) => 400
      case ServerError(_, _) => 500
    }
  }

  const MISSING_FIELDS: string := "Missing required fields"
  const SUBMIT_FAILED: string := "Failed to submit response"
  const FETCH_FAILED: string := "Failed to fetch responses"

  /** The TypeError thrown by `const { answer, ... } = body` on null or undefined. */
  function DestructureError(v: JsValue): string
    requires !Destructurable(v)
  {
    "TypeError: Cannot destructure property 'answer' of 'body' as it is "
      + (if v.Null? then "null." else "undefined.")
  }

  /** The outcome of reading and validating the request body, before any store
      call: the handler threw, it rejected the body, or it has a record to write. */
  datatype Submission = Threw(details: string) | Rejected | Accepted(record: Record)

  function ReadSubmission(body: Body): (s: Submission)
    ensures s.Rejected? <==>
      body.Parsed? && Destructurable(body.json)
      && (!Truthy(Property(body.json, "answer")) || !Truthy(Property(body.json, "timestamp")))
    ensures s.Accepted? ==>
      body.Parsed? && Destructurable(body.json)
      && s.record.answer == Property(body.json, "answer") && Truthy(s.record.answer)
      && s.record.timestamp == Property(body.json, "timestamp") && Truthy(s.record.timestamp)
      && s.record.message == Or(Property(body.json, "message"), Str(""))
    ensures (body.Parsed? && Destructurable(body.json)
             && Truthy(Property(body.json, "answer")) && Truthy(Property(body.json, "timestamp")))
            ==> s.Accepted?
    ensures body.Malformed? ==> s == Threw(body.details)
    ensures body.Parsed? && !Destructurable(body.json) ==> s.Threw?
  {
    match body
    case Malformed(details) => Threw(details)
    case Parsed(json) =>
      if !Destructurable(json) then Threw(DestructureError(json))
      else
        var answer := Property(json, "answer");
        var message := Property(json, "message");
        var timestamp := Property(json, "timestamp");
        if !Truthy(answer) || !Truthy(timestamp) then Rejected
        else Accepted(Record(answer, Or(message, Str("")), timestamp))
  }

  /** The whole effect of one `POST /response`: the new store contents and the
      reply. Validation comes first; the only write is one `set` of the minted key. */
  function SubmitEffect(m: map<string, Record>, body: Body, now: nat, suffix: string, fault: Option<string>)
    : (r: (map<string, Record>, Reply<string>))
    ensures r.1.Success? <==> ReadSubmission(body).Accepted? && fault.None?
    ensures !r.1.Success? ==> r.0 == m
  {
    match ReadSubmission(body)
    case Threw(details) => (m, ServerError(SUBMIT_FAILED, details))
    case Rejected => (m, ClientError(MISSING_FIELDS))
    case Accepted(record) =>
      var key := MintKey(now, suffix);
      if fault.Some? then (m, ServerError(SUBMIT_FAILED, fault.value))
      else (m[key := record], Success(key))
  }

  /** `POST /response`. */
  method Submit(store: KvStore<Record>, body: Body, now: nat, suffix: string, fault: Option<string>)
    returns (reply: Reply<string>)
    modifies store
    ensures (store.entries, reply) == SubmitEffect(old(store.entries), body, now, suffix, fault)
  {
    var submission := ReadSubmission(body);
    match submission
    case Threw(details) =>
      reply := ServerError(SUBMIT_FAILED, details);
    case Rejected =>
      reply := ClientError(MISSING_FIELDS);
    case Accepted(record) =>
      var key := MintKey(now, suffix);
      var outcome := store.Set(key, record, fault);
      if outcome.Fail? {
        reply := ServerError(SUBMIT_FAILED, outcome.details);
      } else {
        reply := Success(key);
      }
  }

  /** A missing or falsy `answer` or `timestamp` (the empty string included)
      gets a 400 and leaves the store untouched. This covers every non-null
      body: an array, a string, a number or `true` has neither field. */
  lemma MissingFieldRejected(m: map<string, Record>, body: Body, now: nat, suffix: string, fault: Option<string>)
    requires body.Parsed? && Destructurable(body.json)
    requires !Truthy(Property(body.json, "answer")) || !Truthy(Property(body.json, "timestamp"))
    ensures SubmitEffect(m, body, now, suffix, fault) == (m, ClientError(MISSING_FIELDS))
    ensures SubmitEffect(m, body, now, suffix, fault).1.Status() == 400
  {
  }

  /** A body that is not JSON, or is `null`, makes the handler throw: the
      catch answers 500 `Failed to submit response` with the error's text,
      and nothing is written. */
  lemma ThrowingBodyIs500(m: map<string, Record>, body: Body, now: nat, suffix: string, fault: Option<string>)
    requires body.Malformed? || !Destructurable(body.json)
    ensures SubmitEffect(m, body, now, suffix, fault) == (m, ServerError(SUBMIT_FAILED, ReadSubmission(body).details))
    ensures body.Malformed? ==> ReadSubmission(body).details == body.details
    ensures SubmitEffect(m, body, now, suffix, fault).1.Status() == 500
  {
  }

  /** The answer is not checked against yes/no/maybe: any truthy answer, with a
      truthy timestamp, is stored as given, and the message defaults to `""`. */
  lemma AnyTruthyAnswerStored(m: map<string, Record>, fields: map<string, JsValue>, now: nat, suffix: string)
    requires "answer" in fields && Truthy(fields["answer"])
    requires "timestamp" in fields && Truthy(fields["timestamp"])
    ensures var message := if "message" in fields && Truthy(fields["message"]) then fields["message"] else Str("");
      SubmitEffect(m, Parsed(Obj(fields)), now, suffix, None)
        == (m[MintKey(now, suffix) := Record(fields["answer"], message, fields["timestamp"])],
            Success(MintKey(now, suffix)))
  {
  }

  /** A successful submit writes one key, the one it returns; that key carries
      the response prefix; every other key keeps its value; with a fresh suffix
      the store grows by exactly one entry. */
  lemma SubmitWritesOneKey(m: map<string, Record>, body: Body, now: nat, suffix: string, fault: Option<string>)
    requires SubmitEffect(m, body, now, suffix, fault).1.Success?
    ensures var (m', reply) := SubmitEffect(m, body, now, suffix, fault);
      && reply.value == MintKey(now, suffix)
      && HasPrefix(reply.value, PREFIX)
      && ReadSubmission(body).Accepted?
      && reply.value in m' && m'[reply.value] == ReadSubmission(body).record
      && (forall k :: k != reply.value ==> (k in m' <==> k in m))
      && (forall k :: k in m && k != reply.value ==> m'[k] == m[k])
      && (reply.value !in m ==> |m'| == |m| + 1)
  {
  }

  /** A store failure while writing gives a 500 with the failure's details. */
  lemma WriteFailureIs500(m: map<string, Record>, body: Body, now: nat, suffix: string, details: string)
    requires ReadSubmission(body).Accepted?
    ensures SubmitEffect(m, body, now, suffix, Some(details)) == (m, ServerError(SUBMIT_FAILED, details))
    ensures SubmitEffect(m, body, now, suffix, Some(details)).1.Status() == 500
  {
  }

  /** Milliseconds since the epoch of an entry's timestamp, by the given parser. */
  function Time(e: Entry<Record>, parse: JsValue -> int): int {
    parse(e.value.timestamp)
  }

  /** Newest first: parsed timestamps never increase along the listing. */
  ghost predicate NewestFirst(s: seq<Entry<Record>>, parse: JsValue -> int) {
    forall i, j :: 0 <= i < j < |s| ==> Time(s[i], parse) >= Time(s[j], parse)
  }

  /** The entries of `s` whose timestamp parses to `t`, in their order in `s`. */
  ghost function WithTime(s: seq<Entry<Record>>, parse: JsValue -> int, t: int): seq<Entry<Record>> {
    if s == [] then []
    else (if Time(s[0], parse) == t then [s[0]] else []) + WithTime(s[1..], parse, t)
  }

  /** Stable reordering: entries with equal timestamps keep their relative order. */
  ghost predicate SameOrderPerTime(s: seq<Entry<Record>>, s': seq<Entry<Record>>, parse: JsValue -> int) {
    forall t :: WithTime(s, parse, t) == WithTime(s', parse, t)
  }

  lemma {:induction false} WithTimeAppend(s: seq<Entry<Record>>, s': seq<Entry<Record>>, parse: JsValue -> int, t: int)
    ensures WithTime(s + s', parse, t) == WithTime(s, parse, t) + WithTime(s', parse, t)
  {
    if s == [] {
      assert s + s' == s';
    } else {
      var u := s + s';
      assert u != [] && u[0] == s[0] && u[1..] == s[1..] + s';
      WithTimeAppend(s[1..], s', parse, t);
    }
  }

  /** `responses.sort((a, b) => timeB - timeA)`: an in-place sort, newest
      first, that only reorders and, like JavaScript's sort, is stable. */
  method SortNewestFirst(a: array<Entry<Record>>, parse: JsValue -> int)
    modifies a
    ensures NewestFirst(a[..], parse)
    ensures multiset(a[..]) == multiset(old(a[..]))
    ensures SameOrderPerTime(a[..], old(a[..]), parse)
  {
    var i := 0;
    while i < a.Length
      invariant 0 <= i <= a.Length
      invariant SortedUpTo(a[..], i, parse)
      invariant multiset(a[..]) == multiset(old(a[..]))
      invariant SameOrderPerTime(a[..], old(a[..]), parse)
    {
      InsertAt(a, i, parse);
      i := i + 1;
    }
  }

  /** The first `n` entries are newest first. */
  ghost predicate SortedUpTo(s: seq<Entry<Record>>, n: nat, parse: JsValue -> int)
    requires n <= |s|
  {
    forall p, q :: 0 <= p < q < n ==> Time(s[p], parse) >= Time(s[q], parse)
  }

  /** One insertion step: moves `a[i]` left past every strictly older entry. */
  method InsertAt(a: array<Entry<Record>>, i: nat, parse: JsValue -> int)
    requires i < a.Length && SortedUpTo(a[..], i, parse)
    modifies a
    ensures SortedUpTo(a[..], i + 1, parse)
    ensures multiset(a[..]) == multiset(old(a[..]))
    ensures SameOrderPerTime(a[..], old(a[..]), parse)
  {
    var j := i;
    StartInserting(a[..], i, parse);
    while j > 0 && Time(a[j - 1], parse) < Time(a[j], parse)
      invariant 0 <= j <= i
      invariant Inserting(a[..], i, j, parse)
      invariant multiset(a[..]) == multiset(old(a[..]))
      invariant SameOrderPerTime(a[..], old(a[..]), parse)
    {
      ghost var s := a[..];
      SwapAdjacent(a, j, parse);
      SwapKeepsInsertion(s, a[..], i, j, parse);
      j := j - 1;
    }
    InsertionDone(a[..], i, j, parse);
  }

  /** Partway through inserting the entry at `i`, now at `j`: the prefix up
      to `i` without position `j` is newest first, and the entry at `j` is
      strictly newer than every entry after it. */
  ghost predicate Inserting(s: seq<Entry<Record>>, i: nat, j: nat, parse: JsValue -> int)
    requires j <= i < |s|
  {
    && (forall p, q :: 0 <= p < q <= i && p != j && q != j ==> Time(s[p], parse) >= Time(s[q], parse))
    && (forall q :: j < q <= i ==> Time(s[j], parse) > Time(s[q], parse))
  }

  /** Swapping the entry being inserted with its strictly older left
      neighbour keeps the insertion invariant, one position further left. */
  lemma SwapKeepsInsertion(s: seq<Entry<Record>>, s': seq<Entry<Record>>, i: nat, j: nat, parse: JsValue -> int)
    requires 0 < j <= i < |s| == |s'|
    requires Inserting(s, i, j, parse) && Time(s[j - 1], parse) < Time(s[j], parse)
    requires s'[j - 1] == s[j] && s'[j] == s[j - 1]
    requires forall k :: 0 <= k < |s| && k != j - 1 && k != j ==> s'[k] == s[k]
    ensures Inserting(s', i, j - 1, parse)
  {
  }

  /** Once the inserted entry is no newer than its left neighbour, the whole
      prefix up to `i` is newest first. */
  lemma InsertionDone(s: seq<Entry<Record>>, i: nat, j: nat, parse: JsValue -> int)
    requires j <= i < |s|
    requires Inserting(s, i, j, parse)
    requires j == 0 || Time(s[j - 1], parse) >= Time(s[j], parse)
    ensures SortedUpTo(s, i + 1, parse)
  {
  }

  /** Before any swap the entry at `i` has nothing after it to be newer than. */
  lemma StartInserting(s: seq<Entry<Record>>, i: nat, parse: JsValue -> int)
    requires i < |s| && SortedUpTo(s, i, parse)
    ensures Inserting(s, i, i, parse)
  {
  }

  /** Swaps two neighbours with different timestamps. */
  method SwapAdjacent(a: array<Entry<Record>>, j: nat, parse: JsValue -> int)
    requires 0 < j < a.Length && Time(a[j - 1], parse) != Time(a[j], parse)
    modifies a
    ensures a[j - 1] == old(a[j]) && a[j] == old(a[j - 1])
    ensures forall k :: 0 <= k < a.Length && k != j - 1 && k != j ==> a[k] == old(a[k])
    ensures multiset(a[..]) == multiset(old(a[..]))
    ensures SameOrderPerTime(a[..], old(a[..]), parse)
  {
    ghost var before, x, y, after := a[..j - 1], a[j - 1], a[j], a[j + 1..];
    assert a[..] == before + [x, y] + after;
    a[j - 1], a[j] := a[j], a[j - 1];
    assert a[..] == before + [y, x] + after;
    forall t ensures WithTime(a[..], parse, t) == WithTime(old(a[..]), parse, t) {
      WithTimeSwap(before, x, y, after, parse, t);
    }
  }

  /** Exchanging two neighbours with different timestamps does not change the
      order among the entries of any one timestamp. */
  lemma WithTimeSwap(before: seq<Entry<Record>>, x: Entry<Record>, y: Entry<Record>,
                     after: seq<Entry<Record>>, parse: JsValue -> int, t: int)
    requires Time(x, parse) != Time(y, parse)
    ensures WithTime(before + [y, x] + after, parse, t) == WithTime(before + [x, y] + after, parse, t)
  {
    WithTimeAppend(before + [y, x], after, parse, t);
    WithTimeAppend(before, [y, x], parse, t);
    WithTimeAppend(before + [x, y], after, parse, t);
    WithTimeAppend(before, [x, y], parse, t);
    assert [y, x][1..] == [x];
    assert [x, y][1..] == [y];
  }

  /** `GET /responses`: every stored response and nothing else, each once,
      newest first; a store failure gives a 500 with its details. */
  method List(store: KvStore<Record>, parse: JsValue -> int, fault: Option<string>)
    returns (reply: Reply<seq<Entry<Record>>>)
    ensures fault.Some? ==> reply == ServerError(FETCH_FAILED, fault.value)
    ensures fault.None? ==> reply.Success?
    ensures reply.Success? ==>
      ListsExactly(reply.value, Scan(store.entries, PREFIX)) && NewestFirst(reply.value, parse)
  {
    var scanned := store.GetByPrefix(PREFIX, fault);
    if scanned.None? {
      return ServerError(FETCH_FAILED, fault.value);
    }
    var entries := scanned.value;
    var a := new Entry<Record>[|entries|](i requires 0 <= i < |entries| => entries[i]);
    assert a[..] == entries;
    SortNewestFirst(a, parse);
    reply := Success(a[..]);
  }

  /** Every entry of a listing of the response scan is under the prefix. */
  lemma ListedKeysArePrefixed(r: seq<Entry<Record>>, m: map<string, Record>, i: nat)
    requires ListsExactly(r, Scan(m, PREFIX)) && i < |r|
    ensures HasPrefix(r[i].key, PREFIX) && r[i].key in m && m[r[i].key] == r[i].value
  {
  }

  /** Of two listed responses, the one with the later timestamp comes first. */
  lemma NewerListedFirst(r: seq<Entry<Record>>, parse: JsValue -> int, i: nat, j: nat)
    requires NewestFirst(r, parse) && i < |r| && j < |r|
    requires Time(r[i], parse) > Time(r[j], parse)
    ensures i < j
  {
  }

  /** A successful submit with a fresh key is in every later listing, exactly
      once, and the listing has grown by one. */
  lemma SubmittedIsListed(m: map<string, Record>, body: Body, now: nat, suffix: string,
                          r: seq<Entry<Record>>, parse: JsValue -> int)
    requires MintKey(now, suffix) !in m
    requires SubmitEffect(m, body, now, suffix, None).1.Success?
    requires ListsExactly(r, Scan(SubmitEffect(m, body, now, suffix, None).0, PREFIX))
    ensures multiset(r)[Entry(MintKey(now, suffix), ReadSubmission(body).record)] == 1
    ensures |r| == |Scan(m, PREFIX)| + 1
  {
    var key := MintKey(now, suffix);
    var record := ReadSubmission(body).record;
    ScanAfterFreshWrite(m, PREFIX, key, record);
    ListingLength(r, Scan(m[key := record], PREFIX));
  }
}
