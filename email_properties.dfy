/** Properties that relate several operations of the email service. */
module EmailProperties {

  import opened Wrappers
  import opened EmailModels
  import opened Ordering
  import opened SqlLike
  import opened EmailService

  /** A search string without LIKE wildcards finds exactly the rows whose
      subject, body or sender holds it as a substring, ignoring ASCII case. */
  lemma SearchIsSubstringSearch(e: Email, q: string)
    requires NoWildcards(q)
    ensures SearchHit(e, q) <==>
            ContainsFolded(e.subject, q) || ContainsFolded(e.body, q) || ContainsFolded(e.sender, q)
  {
    ContainsPatternIsSubstring(e.subject, q);
    ContainsPatternIsSubstring(e.body, q);
    ContainsPatternIsSubstring(e.sender, q);
  }

  /** Searching for the empty string returns the rows the list endpoint
      returns. Both use the same tie-break among rows with equal
      timestamps, so here the two listings are even equal as sequences; SQL
      itself leaves that order open. */
  lemma EmptySearchListsAll(m: map<int, Email>)
    requires PrimaryKey(m)
    ensures multiset(SearchEmails(m, "")) == multiset(ListEmails(m))
    ensures SearchEmails(m, "") == ListEmails(m)
  {
    var hit := (e: Email) => SearchHit(e, "");
    var all := (e: Email) => true;
    forall k | k in m
      ensures hit(m[k]) == all(m[k])
    {
      EmptyPatternMatchesAll(m[k].subject);
    }
    assert Restrict(m, hit) == Restrict(m, all);
  }

  /** Every unread row is listed by the list endpoint too. */
  lemma UnreadAreListed(m: map<int, Email>, e: Email)
    requires PrimaryKey(m)
    requires e in UnreadEmails(m)
    ensures e in ListEmails(m) && !e.read
  {
  }

  /** A sent mail can be fetched back by its id, exactly as it was stored. */
  lemma GetAfterSend(m: map<int, Email>, e: Email)
    requires PrimaryKey(m) && e.id !in m
    ensures PrimaryKey(m[e.id := e])
    ensures GetEmail(m[e.id := e], e.id) == Success(e)
  {
  }

  /** After a delete the id is gone, and every other id answers as before. */
  lemma GetAfterDelete(m: map<int, Email>, id: int, other: int)
    requires PrimaryKey(m) && other != id
    ensures PrimaryKey(m - {id})
    ensures GetEmail(m - {id}, id) == Failure(NotFound(EmailNotFound))
    ensures GetEmail(m - {id}, other) == GetEmail(m, other)
  {
  }

  /** Setting the read flag changes that flag of the target row and nothing
      else: the same ids, every other row as it was, and every other column of
      the target as it was. */
  lemma WithReadChangesOnlyTheFlag(m: map<int, Email>, id: int, v: bool)
    requires PrimaryKey(m) && id in m
    ensures var m' := WithRead(m, id, v);
            && PrimaryKey(m')
            && m'.Keys == m.Keys
            && (forall k :: k in m && k != id ==> m'[k] == m[k])
            && m'[id].read == v
            && m'[id] == m[id].(read := v)
  {
  }

  /** Marking twice is marking once. */
  lemma MarkIsIdempotent(m: map<int, Email>, id: int, v: bool)
    requires id in m
    ensures WithRead(WithRead(m, id, v), id, v) == WithRead(m, id, v)
  {
  }

  /** Marking an unread row read and then unread restores the table. */
  lemma ReadThenUnreadRestores(m: map<int, Email>, id: int)
    requires id in m && !m[id].read
    ensures WithRead(WithRead(m, id, true), id, false) == m
  {
    assert m[id].(read := false) == m[id];
  }

  /** Empty strings are no constraint: they are never rejected and the
      filter then keeps every row. */
  lemma EmptyFilterParametersKeepAll(m: map<int, Email>, parseDate: string -> Option<int>)
    ensures !BadDate(Some(""), parseDate)
    ensures FilterMatches(m, Some(""), Some(""), Some(""), parseDate) == m.Values
    ensures FilterMatches(m, None, None, None, parseDate) == m.Values
  {
  }

  /** The upper date bound is midnight of the `date_to` day, so a mail sent
      later on that same day is filtered out. */
  lemma LaterOnEndDayExcluded(e: Email, dateTo: string, parseDate: string -> Option<int>)
    requires dateTo != "" && parseDate(dateTo).Some?
    requires e.timestamp > parseDate(dateTo).value
    ensures forall recipient, from ::
              !FilterHit(e, recipient, from, DateBound(Some(dateTo), parseDate))
  {
  }

  /** Searching for "QUARTERLY" hits any row whose subject is
      "Quarterly Report": the search ignores ASCII case. */
  lemma QuarterlyHitsReport(e: Email)
    requires e.subject == "Quarterly Report"
    ensures SearchHit(e, "QUARTERLY")
  {
    var q := "QUARTERLY";
    assert e.subject[..|q|] == "Quarterly";
    assert EqualsFolded("Quarterly", q);
    assert OccursAt(e.subject, q, 0);
    ContainsPatternIsSubstring(e.subject, q);
  }

  /** After seeding, however the samples were shuffled, searching for
      "QUARTERLY" returns the boss's "Quarterly Report" mail. */
  lemma SeededQuarterlySearch(shuffled: seq<Message>, now: int)
    requires multiset(shuffled) == multiset(SampleMessages)
    ensures exists e :: e in SearchEmails(Seeded(shuffled, now), "QUARTERLY") &&
                        e.subject == "Quarterly Report" && e.sender == "boss@email.com"
  {
    var m := Seeded(shuffled, now);
    SampleIsSeeded(shuffled, now, SampleMessages[0]);
    var k :| k in m && Content(m[k]) == SampleMessages[0];
    QuarterlyHitsReport(m[k]);
    assert m[k] in m.Values;
    assert m[k] in SearchEmails(m, "QUARTERLY");
  }
}
