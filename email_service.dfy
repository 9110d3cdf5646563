/** The email simulation service: the read-only queries over the `emails`
    table, and the store whose endpoints change it. */
module EmailService {

  import opened Wrappers
  import opened EmailModels
  import opened Ordering
  import opened SqlLike

  /** The service's error replies (HTTP 404 and 400), with their detail text. */
  datatype Error = NotFound(detail: string) | InvalidArgument(detail: string)

  const EmailNotFound: string := "Email not found"
  const InvalidDateFrom: string := "Invalid date_from format. Use YYYY-MM-DD"
  const InvalidDateTo: string := "Invalid date_to format. Use YYYY-MM-DD"
  const EmailDeleted: string := "Email deleted"
  const DatabaseReset: string := "Database reset and emails reloaded"

  /** The sender the send endpoint writes on every outgoing mail. */
  const OwnAddress: string := "you@mail.com"

  // ---------------------------------------------------------------------
  // Read-only queries

  /** `GET /emails`: every stored row, newest first. */
  function ListEmails(m: map<int, Email>): (r: seq<Email>)
    requires PrimaryKey(m)
    ensures Descending(r)
    ensures multiset(r) == multiset(m.Values)
    ensures forall e :: e in r <==> e in m.Values
  {
    var r := Select(m, (e: Email) => true);
    assert Matching(m, (e: Email) => true) == m.Values;
    r
  }

  /** `GET /emails/unread`: exactly the rows not yet read, newest first. */
  function UnreadEmails(m: map<int, Email>): (r: seq<Email>)
    requires PrimaryKey(m)
    ensures Descending(r)
    ensures multiset(r) == multiset(set e | e in m.Values && !e.read)
    ensures forall e :: e in r <==> e in m.Values && !e.read
  {
    Select(m, (e: Email) => !e.read)
  }

  /** The search predicate: `q` matches the subject, the body or the sender
      under `ILIKE '%q%'`. */
  predicate SearchHit(e: Email, q: string)
  {
    var p := ContainsPattern(q);
    Like(e.subject, p) || Like(e.body, p) || Like(e.sender, p)
  }

  /** `GET /emails/search?q=`: exactly the rows the search predicate
      accepts, newest first. */
  function SearchEmails(m: map<int, Email>, q: string): (r: seq<Email>)
    requires PrimaryKey(m)
    ensures Descending(r)
    ensures multiset(r) == multiset(set e | e in m.Values && SearchHit(e, q))
    ensures forall e :: e in r <==> e in m.Values && SearchHit(e, q)
  {
    Select(m, (e: Email) => SearchHit(e, q))
  }

  /** `GET /emails/{id}`: the row whose id column is `id`, or NotFound. */
  function GetEmail(m: map<int, Email>, id: int): (r: Result<Email, Error>)
    requires PrimaryKey(m)
    ensures r.Success? ==> id in m && r.value == m[id] && r.value.id == id
    ensures r.Failure? ==> r.error == NotFound(EmailNotFound)
    ensures r.Failure? <==> forall e :: e in m.Values ==> e.id != id
  {
    if id in m then Success(m[id])
    else
      assert forall e :: e in m.Values ==> e.id != id by {
        forall e | e in m.Values
          ensures e.id != id
        {
          ValueHasKey(m, e);
        }
      }
      Failure(NotFound(EmailNotFound))
  }

  // ---------------------------------------------------------------------
  // The filter endpoint's parameters and predicate

  /** A query parameter as Python's truth test sees it: absent, or empty,
      imposes no constraint. */
  function Supplied(o: Option<string>): (r: Option<string>)
    ensures r.Some? <==> o.Some? && o.value != ""
    ensures r.Some? ==> r == o
  {
    if o.Some? && o.value != "" then o else None
  }

  /** A supplied date that the date parser rejects. */
  predicate BadDate(d: Option<string>, parseDate: string -> Option<int>)
  {
    Supplied(d).Some? && parseDate(d.value).None?
  }

  /** The bound a date parameter sets: midnight of the parsed day, or none
      when the parameter is not supplied. */
  function DateBound(d: Option<string>, parseDate: string -> Option<int>): Option<int>
  {
    if Supplied(d).Some? then parseDate(d.value) else None
  }

  /** The filter predicate: every supplied constraint holds. The recipient
      must match exactly; both date bounds are inclusive. */
  predicate FilterHit(e: Email, recipient: Option<string>, from: Option<int>, to: Option<int>)
  {
    && (recipient.Some? ==> e.recipient == recipient.value)
    && (from.Some? ==> e.timestamp >= from.value)
    && (to.Some? ==> e.timestamp <= to.value)
  }

  /** The rows the filter endpoint returns when both dates parse. */
  ghost function FilterMatches(m: map<int, Email>, recipient: Option<string>,
                               dateFrom: Option<string>, dateTo: Option<string>,
                               parseDate: string -> Option<int>): set<Email>
  {
    set e | e in m.Values &&
      FilterHit(e, Supplied(recipient), DateBound(dateFrom, parseDate), DateBound(dateTo, parseDate))
  }

  // ---------------------------------------------------------------------
  // State changes, as functions of the table

  /** The table after the read flag of row `id` is set to `v`. */
  function WithRead(m: map<int, Email>, id: int, v: bool): (r: map<int, Email>)
    requires id in m
    ensures r.Keys == m.Keys
    ensures r[id].read == v && Content(r[id]) == Content(m[id])
    ensures r[id].id == m[id].id && r[id].timestamp == m[id].timestamp
    ensures forall k :: k in m && k != id ==> r[k] == m[k]
  {
    m[id := m[id].(read := v)]
  }

  /** The fields of a message that the seed routine fixes. */
  datatype Message = Message(sender: string, recipient: string, subject: string, body: string)

  function Content(e: Email): Message
  {
    Message(e.sender, e.recipient, e.subject, e.body)
  }

  /** The six sample messages the table is seeded with. */
  const SampleMessages: seq<Message> := [
    Message("boss@email.com", "you@email.com", "Quarterly Report", "Please finalize the report ASAP."),
    Message("alice@work.com", "you@email.com", "Lunch?", "Free for lunch today?"),
    Message("bob@work.com", "you@email.com", "Code Review", "I left some comments on your PR."),
    Message("charlie@work.com", "you@email.com", "Meeting", "Can we reschedule?"),
    Message("eric@work.com", "you@email.com", "Happy Hour", "We're planning drinks this Friday!"),
    Message("you@mail.com", "boss@email.com", "Days off", "Can I get some days off the coming week?")
  ]

  /** No two samples are alike: their subjects already differ. */
  lemma SamplesAreDistinct()
    ensures forall i, j :: 0 <= i < j < |SampleMessages| ==> SampleMessages[i] != SampleMessages[j]
  {
    var subjects := ["Quarterly Report", "Lunch?", "Code Review", "Meeting", "Happy Hour", "Days off"];
    assert forall i :: 0 <= i < 6 ==> SampleMessages[i].subject == subjects[i];
    assert forall i, j :: 0 <= i < j < 6 ==> subjects[i][0] != subjects[j][0] || subjects[i][1] != subjects[j][1];
  }

  /** The insert the seed routine issues for a sample: every column given,
      stamped `now` and unread. */
  function SampleRow(msg: Message, now: int): NewEmail
  {
    NewEmail(Some(msg.sender), msg.recipient, msg.subject, msg.body, Some(now), Some(false))
  }

  /** The ids 1 to n. */
  function IdRange(n: nat): (ids: set<int>)
    ensures forall k :: k in ids <==> 1 <= k <= n
    ensures |ids| == n
  {
    if n == 0 then {} else IdRange(n - 1) + {n}
  }

  /** The row the engine stores for a sample inserted under `id`. */
  function SeedRow(msg: Message, id: int, now: int): (e: Email)
    ensures e.id == id && Content(e) == msg
    ensures !e.read && e.timestamp == now
  {
    Materialize(SampleRow(msg, now), id, now)
  }

  /** Row `id` holds the sample at position `id` of the insertion order.
      This is the body of `Seeded`, kept apart so that its keys and its rows
      are proved about in separate lemmas. */
  function SeedMap(shuffled: seq<Message>, now: int): map<int, Email>
  {
    map id | id in IdRange(|shuffled|) :: SeedRow(shuffled[id - 1], id, now)
  }

  /** Each seeded id maps to the row built from its sample. */
  lemma SeedMapRows(shuffled: seq<Message>, now: int)
    ensures forall k :: k in SeedMap(shuffled, now) ==>
              SeedMap(shuffled, now)[k] == SeedRow(shuffled[k - 1], k, now)
  {
  }

  /** The seeded ids are exactly 1 to the number of samples. */
  lemma SeedMapKeys(shuffled: seq<Message>, now: int)
    ensures SeedMap(shuffled, now).Keys == IdRange(|shuffled|)
  {
  }

  /** The table after the seed rows are inserted into an empty table, in the
      order given: the engine numbers them 1, 2, ... in insertion order. */
  function Seeded(shuffled: seq<Message>, now: int): (m: map<int, Email>)
    ensures PrimaryKey(m)
    ensures forall k :: k in m ==> !m[k].read && m[k].timestamp == now
    ensures m.Keys == IdRange(|shuffled|) && |m| == |shuffled|
    ensures forall k :: k in m ==> Content(m[k]) == shuffled[k - 1]
  {
    SeedMapRows(shuffled, now);
    SeedMapKeys(shuffled, now);
    var m := SeedMap(shuffled, now);
    assert |m| == |m.Keys|;
    m
  }

  // ---------------------------------------------------------------------
  // The store

  /** The `emails` table behind the service's endpoints. */
  class EmailStore {

    var emails: map<int, Email>

    /** `id` is the primary key. */
    ghost predicate Valid()
      reads this
    {
      PrimaryKey(emails)
    }

    /** A freshly created, empty table. */
    constructor ()
      ensures Valid() && emails == map[]
    {
      emails := map[];
    }

    /** `POST /send`: stores one new row with a fresh id, the given
        recipient, subject and body, the service's own sender address, the
        current time and the unread flag; every other row is kept. */
    method SendEmail(recipient: string, subject: string, body: string, now: int) returns (e: Email)
      requires Valid()
      modifies this
      ensures Valid()
      ensures e.id !in old(emails)
      ensures emails == old(emails)[e.id := e]
      ensures e.sender == OwnAddress && e.recipient == recipient
      ensures e.subject == subject && e.body == body
      ensures e.timestamp == now && !e.read
    {
      var id := NextId(emails.Keys);
      e := Materialize(NewEmail(Some(OwnAddress), recipient, subject, body, None, None), id, now);
      emails := emails[id := e];
    }

    /** `GET /emails/filter`: the date parser is a parameter (it yields
        midnight of a `YYYY-MM-DD` day, or nothing). A bad `date_from` is
        reported before `date_to` is looked at; otherwise the result holds
        exactly the rows meeting every supplied constraint, newest first. */
    method FilterEmails(recipient: Option<string>, dateFrom: Option<string>, dateTo: Option<string>,
                        parseDate: string -> Option<int>)
      returns (r: Result<seq<Email>, Error>)
      requires Valid()
      ensures BadDate(dateFrom, parseDate) ==> r == Failure(InvalidArgument(InvalidDateFrom))
      ensures !BadDate(dateFrom, parseDate) && BadDate(dateTo, parseDate) ==>
                r == Failure(InvalidArgument(InvalidDateTo))
      ensures !BadDate(dateFrom, parseDate) && !BadDate(dateTo, parseDate) ==>
                && r.Success?
                && Descending(r.value)
                && multiset(r.value) == multiset(FilterMatches(emails, recipient, dateFrom, dateTo, parseDate))
    {
      var keep: Email -> bool := e => true;
      if Supplied(recipient).Some? {
        var who := recipient.value;
        var prev := keep;
        keep := e => prev(e) && e.recipient == who;
      }
      assert forall e :: keep(e) == FilterHit(e, Supplied(recipient), None, None);
      if Supplied(dateFrom).Some? {
        var from := parseDate(dateFrom.value);
        if from.None? {
          return Failure(InvalidArgument(InvalidDateFrom));
        }
        var lo := from.value;
        var prev := keep;
        keep := e => prev(e) && e.timestamp >= lo;
      }
      assert forall e :: keep(e) == FilterHit(e, Supplied(recipient), DateBound(dateFrom, parseDate), None);
      if Supplied(dateTo).Some? {
        var to := parseDate(dateTo.value);
        if to.None? {
          return Failure(InvalidArgument(InvalidDateTo));
        }
        var hi := to.value;
        var prev := keep;
        keep := e => prev(e) && e.timestamp <= hi;
      }
      assert forall e :: keep(e) == FilterHit(e, Supplied(recipient),
                                              DateBound(dateFrom, parseDate), DateBound(dateTo, parseDate));
      assert Matching(emails, keep) == FilterMatches(emails, recipient, dateFrom, dateTo, parseDate);
      r := Success(Select(emails, keep));
    }

    /** `PATCH /emails/{id}/read`: sets the read flag of that row and
        returns it; NotFound, with nothing changed, when no row has the id. */
    method MarkEmailAsRead(id: int) returns (r: Result<Email, Error>)
      requires Valid()
      modifies this
      ensures Valid()
      ensures id !in old(emails) ==> r == Failure(NotFound(EmailNotFound)) && emails == old(emails)
      ensures id in old(emails) ==>
                emails == WithRead(old(emails), id, true) && r == Success(emails[id])
    {
      var found := GetEmail(emails, id);
      if found.Failure? {
        return Failure(found.error);
      }
      emails := WithRead(emails, id, true);
      r := Success(emails[id]);
    }

    /** `PATCH /emails/{id}/unread`: clears the read flag of that row and
        returns it; NotFound, with nothing changed, when no row has the id. */
    method MarkEmailAsUnread(id: int) returns (r: Result<Email, Error>)
      requires Valid()
      modifies this
      ensures Valid()
      ensures id !in old(emails) ==> r == Failure(NotFound(EmailNotFound)) && emails == old(emails)
      ensures id in old(emails) ==>
                emails == WithRead(old(emails), id, false) && r == Success(emails[id])
    {
      var found := GetEmail(emails, id);
      if found.Failure? {
        return Failure(found.error);
      }
      emails := WithRead(emails, id, false);
      r := Success(emails[id]);
    }

    /** `DELETE /emails/{id}`: removes that row and no other; NotFound, with
        nothing changed, when no row has the id. */
    method DeleteEmail(id: int) returns (r: Result<string, Error>)
      requires Valid()
      modifies this
      ensures Valid()
      ensures id !in old(emails) ==> r == Failure(NotFound(EmailNotFound)) && emails == old(emails)
      ensures id in old(emails) ==> r == Success(EmailDeleted) && emails == old(emails) - {id}
    {
      var found := GetEmail(emails, id);
      if found.Failure? {
        return Failure(found.error);
      }
      emails := emails - {id};
      r := Success(EmailDeleted);
    }

    /** The startup seed routine: whatever the table held, it ends up holding
        exactly the six sample messages, all unread and stamped `now`.
        `shuffled` is the sample list after the random shuffle. */
    method PreloadEmails(now: int, shuffled: seq<Message>)
      requires multiset(shuffled) == multiset(SampleMessages)
      modifies this
      ensures Valid()
      ensures emails == Seeded(shuffled, now)
      ensures |emails| == |SampleMessages|
      ensures (set k | k in emails :: Content(emails[k])) == set msg | msg in SampleMessages
      ensures forall j, k :: j in emails && k in emails && j != k ==> Content(emails[j]) != Content(emails[k])
      ensures forall k :: k in emails ==> !emails[k].read && emails[k].timestamp == now
    {
      emails := map[];
      emails := Seeded(shuffled, now);
      SeededSize(shuffled, now);
      SeededContents(shuffled, now);
      SeededRowsDistinct(shuffled, now);
    }

    /** `GET /reset_database`: reruns the seed routine. */
    method ResetDatabase(now: int, shuffled: seq<Message>) returns (msg: string)
      requires multiset(shuffled) == multiset(SampleMessages)
      modifies this
      ensures Valid()
      ensures emails == Seeded(shuffled, now)
      ensures |emails| == |SampleMessages|
      ensures (set k | k in emails :: Content(emails[k])) == set msg | msg in SampleMessages
      ensures forall j, k :: j in emails && k in emails && j != k ==> Content(emails[j]) != Content(emails[k])
      ensures forall k :: k in emails ==> !emails[k].read && emails[k].timestamp == now
      ensures msg == DatabaseReset
    {
      PreloadEmails(now, shuffled);
      msg := DatabaseReset;
    }
  }

  /** The seeded table holds one row per sample. */
  lemma SeededSize(shuffled: seq<Message>, now: int)
    requires multiset(shuffled) == multiset(SampleMessages)
    ensures |Seeded(shuffled, now)| == |SampleMessages|
  {
    assert |shuffled| == |multiset(shuffled)| == |SampleMessages|;
  }

  /** The seeded table holds exactly the sample messages, whatever their
      order. */
  lemma SeededContents(shuffled: seq<Message>, now: int)
    requires multiset(shuffled) == multiset(SampleMessages)
    ensures (set k | k in Seeded(shuffled, now) :: Content(Seeded(shuffled, now)[k]))
            == set msg | msg in SampleMessages
  {
    var m := Seeded(shuffled, now);
    forall msg | msg in SampleMessages
      ensures msg in (set k | k in m :: Content(m[k]))
    {
      SampleIsSeeded(shuffled, now, msg);
    }
    forall k | k in m
      ensures Content(m[k]) in SampleMessages
    {
      assert shuffled[k - 1] in multiset(SampleMessages);
    }
  }

  /** Every sample lands in some row of the seeded table. */
  lemma SampleIsSeeded(shuffled: seq<Message>, now: int, msg: Message)
    requires multiset(shuffled) == multiset(SampleMessages)
    requires msg in SampleMessages
    ensures exists k :: k in Seeded(shuffled, now) && Content(Seeded(shuffled, now)[k]) == msg
  {
    assert msg in multiset(shuffled);
    var i :| 0 <= i < |shuffled| && shuffled[i] == msg;
    var m := Seeded(shuffled, now);
    assert i + 1 in m && Content(m[i + 1]) == msg;
  }

  /** No two rows of the seeded table hold the same sample. */
  lemma SeededRowsDistinct(shuffled: seq<Message>, now: int)
    requires multiset(shuffled) == multiset(SampleMessages)
    ensures var m := Seeded(shuffled, now);
            forall j, k :: j in m && k in m && j != k ==> Content(m[j]) != Content(m[k])
  {
    SamplesAreDistinct();
    forall a, b | 0 <= a < b < |shuffled|
      ensures shuffled[a] != shuffled[b]
    {
      RepeatCountsTwice(shuffled, a, b);
      DistinctCountsOnce(SampleMessages, shuffled[a]);
    }
  }

  /** A value at two positions of a sequence occurs in it at least twice. */
  lemma RepeatCountsTwice(s: seq<Message>, i: int, j: int)
    requires 0 <= i < j < |s|
    ensures s[i] == s[j] ==> multiset(s)[s[i]] >= 2
  {
    assert s == s[..j] + [s[j]] + s[j + 1..];
    assert s[..j][i] == s[i];
  }

  /** In a sequence without repeats every value occurs at most once. */
  lemma {:induction false} DistinctCountsOnce(s: seq<Message>, x: Message)
    requires forall i, j :: 0 <= i < j < |s| ==> s[i] != s[j]
    ensures multiset(s)[x] <= 1
    decreases |s|
  {
    if s != [] {
      var t := s[..|s| - 1];
      assert s == t + [s[|s| - 1]];
      DistinctCountsOnce(t, x);
      assert forall i :: 0 <= i < |t| ==> t[i] != s[|s| - 1];
      assert s[|s| - 1] !in multiset(t);
    }
  }
}
