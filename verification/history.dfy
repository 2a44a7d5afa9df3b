/** `MatrixHandler.store_msg`: the table of recent messages, at most ten per
    sender. The TinyDB table is a sequence of records in insertion order
    (the order of document ids, which is the order `search` returns). */
module History {

  /** A stored message. */
  datatype Record = Record(sender: string, body: string)

  type Store = seq<Record>

  /** A Matrix event as the bot reads it: the sender and the string fields
      of `content` (`msgtype`, `body`, ...), any of which may be missing. */
  datatype Event = Event(sender: string, content: map<string, string>)

  /** Records kept per sender. */
  const Cap: nat := 10

  /** `content['msgtype'] == 'm.text'`. */
  predicate IsText(e: Event) {
    "msgtype" in e.content && e.content["msgtype"] == "m.text"
  }

  /** The bodies of one sender's records, oldest first: what
      `msgs_table.search(Query().sender == s)` finds. */
  function Bodies(store: Store, s: string): seq<string> {
    if |store| == 0 then []
    else (if store[0].sender == s then [store[0].body] else []) + Bodies(store[1..], s)
  }

  /** `store` without the `k` oldest records of sender `s` (without all of
      them if there are fewer); every other record stays, in order. */
  function DropOldest(store: Store, s: string, k: nat): Store {
    if |store| == 0 then []
    else if store[0].sender == s && k > 0 then DropOldest(store[1..], s, k - 1)
    else [store[0]] + DropOldest(store[1..], s, k)
  }

  /** `msgs_table.remove(doc_ids=[all_sender_msgs[0].doc_id])`. */
  function RemoveOldest(store: Store, s: string): Store {
    DropOldest(store, s, 1)
  }

  function Min(a: int, b: int): int {
    if a <= b then a else b
  }

  /** The table after `store_msg(e)`, stated without the loop: for an
      `m.text` event the sender keeps its newest `min(n, 9)` records and the
      new body is appended. An event without `msgtype` raises a `KeyError`
      that `store_msg` catches before touching the table. An `m.text` event
      without `body` raises only at the insert, after the eviction. */
  function Stored(store: Store, e: Event): (s: Store)
    ensures !IsText(e) ==> s == store
    ensures IsText(e) && "body" in e.content ==> |s| > 0 && s[|s| - 1] == Record(e.sender, e.content["body"])
  {
    if !IsText(e) then store
    else
      var n := |Bodies(store, e.sender)|;
      var kept := DropOldest(store, e.sender, n - Min(n, Cap - 1));
      if "body" in e.content then kept + [Record(e.sender, e.content["body"])] else kept
  }

  // ---------------------------------------------------------------------
  // How dropping and appending act on each sender's bodies

  lemma {:induction false} BodiesAppend(a: Store, b: Store, s: string)
    ensures Bodies(a + b, s) == Bodies(a, s) + Bodies(b, s)
    decreases |a|
  {
    if |a| == 0 {
      assert a + b == b;
    } else {
      assert (a + b)[1..] == a[1..] + b;
      BodiesAppend(a[1..], b, s);
    }
  }

  /** Dropping the `k` oldest records of `s` drops the `k` oldest bodies of
      `s` and no body of anybody else. */
  lemma {:induction false} BodiesDropOldest(store: Store, s: string, k: nat)
    ensures k <= |Bodies(store, s)| ==> Bodies(DropOldest(store, s, k), s) == Bodies(store, s)[k..]
    ensures forall o :: o != s ==> Bodies(DropOldest(store, s, k), o) == Bodies(store, o)
    decreases |store|
  {
    if |store| > 0 {
      BodiesDropOldest(store[1..], s, k);
      if store[0].sender == s && k > 0 {
        BodiesDropOldest(store[1..], s, k - 1);
      } else {
        var rest := DropOldest(store[1..], s, k);
        assert DropOldest(store, s, k) == [store[0]] + rest;
        assert ([store[0]] + rest)[1..] == rest;
      }
    }
  }

  lemma {:induction false} DropNothing(store: Store, s: string)
    ensures DropOldest(store, s, 0) == store
    decreases |store|
  {
    if |store| > 0 {
      DropNothing(store[1..], s);
      assert store == [store[0]] + store[1..];
    }
  }

  /** Dropping `j` and then `k` more is dropping `j + k`. */
  lemma {:induction false} DropOldestTwice(store: Store, s: string, j: nat, k: nat)
    ensures DropOldest(DropOldest(store, s, j), s, k) == DropOldest(store, s, j + k)
    decreases |store|
  {
    if |store| > 0 {
      if store[0].sender == s && j > 0 {
        DropOldestTwice(store[1..], s, j - 1, k);
      } else {
        var rest := DropOldest(store[1..], s, j);
        assert DropOldest(store, s, j) == [store[0]] + rest;
        assert ([store[0]] + rest)[1..] == rest;
        if j == 0 { DropNothing(store[1..], s); }
        DropOldestTwice(store[1..], s, j, k);
      }
    }
  }

  /** What `store_msg` promises each sender: the event's sender ends with at
      most ten records, the newest `min(n, 9)` old ones followed by the new
      body; every other sender's records are untouched. */
  lemma StoredPerSender(store: Store, e: Event)
    ensures !IsText(e) ==> Stored(store, e) == store
    ensures IsText(e) && "body" in e.content ==>
      var n := |Bodies(store, e.sender)|;
      && Bodies(Stored(store, e), e.sender)
           == Bodies(store, e.sender)[n - Min(n, Cap - 1)..] + [e.content["body"]]
      && |Bodies(Stored(store, e), e.sender)| == Min(n, Cap - 1) + 1 <= Cap
    ensures IsText(e) && "body" !in e.content ==>
      var n := |Bodies(store, e.sender)|;
      Bodies(Stored(store, e), e.sender) == Bodies(store, e.sender)[n - Min(n, Cap - 1)..]
    ensures forall o :: o != e.sender ==> Bodies(Stored(store, e), o) == Bodies(store, o)
  {
    if IsText(e) {
      var n := |Bodies(store, e.sender)|;
      var kept := DropOldest(store, e.sender, n - Min(n, Cap - 1));
      BodiesDropOldest(store, e.sender, n - Min(n, Cap - 1));
      if "body" in e.content {
        var rec := Record(e.sender, e.content["body"]);
        BodiesAppend(kept, [rec], e.sender);
        assert Bodies([rec], e.sender) == [rec.body];
        forall o | o != e.sender ensures Bodies(kept + [rec], o) == Bodies(store, o) {
          BodiesAppend(kept, [rec], o);
          assert Bodies([rec], o) == [];
        }
      }
    }
  }

  /** `store_msg`: evict the sender's oldest record while it has ten or
      more, then insert the new one. */
  method StoreMsg(store: Store, e: Event) returns (r: Store)
    ensures r == Stored(store, e)
    ensures !IsText(e) ==> r == store
    ensures IsText(e) && "body" in e.content ==>
      |Bodies(r, e.sender)| == Min(|Bodies(store, e.sender)|, Cap - 1) + 1 <= Cap
      && Bodies(r, e.sender)[|Bodies(r, e.sender)| - 1] == e.content["body"]
    ensures forall o :: o != e.sender ==> Bodies(r, o) == Bodies(store, o)
  {
    StoredPerSender(store, e);
    if !IsText(e) {
      return store;
    }
    var s := e.sender;
    ghost var n := |Bodies(store, s)|;
    ghost var k: nat := 0;
    r := store;
    var mine := Bodies(r, s);
    DropNothing(store, s);
    while |mine| >= Cap
      invariant mine == Bodies(r, s)
      invariant k <= n && r == DropOldest(store, s, k) && |mine| == n - k
      invariant k == 0 || n - k >= Cap - 1
      decreases |mine|
    {
      DropOldestTwice(store, s, k, 1);
      BodiesDropOldest(store, s, k + 1);
      r := RemoveOldest(r, s);
      k := k + 1;
      mine := Bodies(r, s);
    }
    assert k == n - Min(n, Cap - 1);
    if "body" in e.content {
      r := r + [Record(s, e.content["body"])];
    }
  }

  /** After eleven messages of one sender and a twelfth, that sender's last
      ten remain: the third to the twelfth. */
  lemma TwelfthMessage(store: Store, e: Event, msgs: seq<string>)
    requires IsText(e) && "body" in e.content
    requires Bodies(store, e.sender) == msgs && |msgs| == 11
    ensures Bodies(Stored(store, e), e.sender) == msgs[2..] + [e.content["body"]]
  {
    StoredPerSender(store, e);
  }
}
