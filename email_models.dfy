/** The `emails` table: one row per message, keyed by an integer primary key.
    Timestamps are integers on any scale that orders instants (for example
    microseconds since the epoch). */
module EmailModels {

  import opened Wrappers

  /** A stored row. `sender`, `timestamp` and `read` are nullable columns, but
      every insert in the service fills them, from the caller or from the
      column default, so the row carries plain values. */
  datatype Email = Email(
    id: int,
    sender: string,
    recipient: string,
    subject: string,
    body: string,
    timestamp: int,
    read: bool)

  /** The column values an insert supplies. `recipient`, `subject` and `body`
      are NOT NULL, so an insert must give them; the other three have column
      defaults and may be left out (`None`). The id is always left to the
      storage engine. */
  datatype NewEmail = NewEmail(
    sender: Option<string>,
    recipient: string,
    subject: string,
    body: string,
    timestamp: Option<int>,
    read: Option<bool>)

  /** Default of the `sender` column. */
  const DefaultSender: string := "default@demo.com"

  /** The row the table stores for an insert of `n` that the engine numbered
      `id`, at time `now`: each column left out takes its default (the fixed
      sender address, the insertion time, unread). */
  function Materialize(n: NewEmail, id: int, now: int): (e: Email)
    ensures e.id == id
    ensures e.recipient == n.recipient && e.subject == n.subject && e.body == n.body
    ensures n.sender.Some? ==> e.sender == n.sender.value
    ensures n.sender.None? ==> e.sender == DefaultSender
    ensures n.timestamp.Some? ==> e.timestamp == n.timestamp.value
    ensures n.timestamp.None? ==> e.timestamp == now
    ensures n.read.Some? ==> e.read == n.read.value
    ensures n.read.None? ==> !e.read
  {
    Email(
      id,
      match n.sender case Some(s) => s case None => DefaultSender,
      n.recipient,
      n.subject,
      n.body,
      match n.timestamp case Some(t) => t case None => now,
      match n.read case Some(b) => b case None => false)
  }

  /** Validity of the table: `id` is the primary key, so each row is stored
      under its own id. */
  ghost predicate PrimaryKey(m: map<int, Email>)
  {
    forall k :: k in m ==> m[k].id == k
  }

  /** No two stored rows share an id, and so no two stored rows are equal. */
  lemma IdsAreUnique(m: map<int, Email>, j: int, k: int)
    requires PrimaryKey(m)
    requires j in m && k in m && j != k
    ensures m[j].id != m[k].id && m[j] != m[k]
  {
  }

  /** A set that is not empty has an element. */
  lemma HasElement(s: set<int>)
    ensures s == {} || exists k :: k in s
  {
    if forall k :: k !in s {
      assert s == {};
    }
  }

  /** A nonempty finite set of integers has a largest element. */
  lemma {:induction false} LargestExists(s: set<int>)
    requires s != {}
    ensures exists k :: k in s && forall j :: j in s ==> j <= k
  {
    HasElement(s);
    var x :| x in s;
    var rest := s - {x};
    HasElement(rest);
    if rest == {} {
      forall j | j in s
        ensures j <= x
      {
        assert j !in rest;
      }
    } else {
      LargestExists(rest);
      var k :| k in rest && forall j :: j in rest ==> j <= k;
      var top := if x <= k then k else x;
      assert top in s;
      forall j | j in s
        ensures j <= top
      {
        if j != x { assert j in rest; }
      }
    }
  }

  /** The id the storage engine gives a new row: one more than the largest id
      in the table, or 1 in an empty table (an integer primary key is the row
      id). The model relies only on the id being new. */
  function NextId(ids: set<int>): (r: int)
    ensures r !in ids
    ensures forall k :: k in ids ==> k < r
    ensures ids == {} ==> r == 1
  {
    if ids == {} then 1
    else
      LargestExists(ids);
      var k :| k in ids && forall j :: j in ids ==> j <= k;
      k + 1
  }
}
