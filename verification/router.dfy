/** The routing core of `MossBot`: an insertion-ordered table from regex
    pattern to handler, and `serve`, which calls the handler of the first
    pattern that a case-insensitive search finds in the message body.

    The regex engine is a parameter: `search(pattern, text)` is the result of
    `re.search(pattern, text, re.IGNORECASE)`, reduced to the two named groups
    the bot reads. Patterns are values of a type `K`. Handlers are values of a
    type `H`, and `invoke` is what calling one does, so the table itself
    stays comparable. */
module Router {
  import opened Base

  /** The named groups `route` and `msg` of a match; `None` when the pattern
      has no such group or the group did not take part in the match. */
  datatype Groups = Groups(route: Option<string>, msg: Option<string>)

  /** One key/value pair of the routes `OrderedDict`. */
  datatype Entry<K, H> = Entry(pattern: K, handler: H)

  /** `re.search(pattern, text, re.IGNORECASE)` for a key of the table. */
  type Search<-K> = (K, string) -> Option<Groups>

  /** The keys of the table, in scan order. */
  function Patterns<K, H>(t: seq<Entry<K, H>>): (ps: seq<K>)
    ensures |ps| == |t|
    ensures forall i :: 0 <= i < |t| ==> ps[i] == t[i].pattern
  {
    if |t| == 0 then [] else [t[0].pattern] + Patterns(t[1..])
  }

  /** A dictionary never holds a key twice. */
  predicate UniquePatterns<K(==), H>(t: seq<Entry<K, H>>) {
    forall i, j :: 0 <= i < j < |t| ==> t[i].pattern != t[j].pattern
  }

  /** `self.routes[route] = f`: a new key goes to the end of the scan order; a
      key already present keeps its position and only its handler changes. */
  function Register<K(==), H>(t: seq<Entry<K, H>>, pattern: K, handler: H): (r: seq<Entry<K, H>>)
    ensures pattern in Patterns(t) ==> Patterns(r) == Patterns(t)
    ensures pattern !in Patterns(t) ==> Patterns(r) == Patterns(t) + [pattern]
    ensures forall i :: 0 <= i < |t| && t[i].pattern != pattern ==> r[i] == t[i]
  {
    if |t| == 0 then [Entry(pattern, handler)]
    else if t[0].pattern == pattern then
      var r := [Entry(pattern, handler)] + t[1..];
      assert r[1..] == t[1..];
      r
    else
      var r := [t[0]] + Register(t[1..], pattern, handler);
      assert r[1..] == Register(t[1..], pattern, handler);
      r
  }

  /** Registering a pattern the table does not hold appends one entry. */
  lemma {:induction false} RegisterNew<K, H>(t: seq<Entry<K, H>>, pattern: K, handler: H)
    requires forall i :: 0 <= i < |t| ==> t[i].pattern != pattern
    ensures Register(t, pattern, handler) == t + [Entry(pattern, handler)]
    decreases |t|
  {
    if |t| > 0 {
      RegisterNew(t[1..], pattern, handler);
      assert t + [Entry(pattern, handler)] == [t[0]] + (t[1..] + [Entry(pattern, handler)]);
    }
  }

  /** Registering the entries of `es` one after the other, as a sequence of
      decorators does. */
  function RegisterAll<K(==), H>(t: seq<Entry<K, H>>, es: seq<Entry<K, H>>): seq<Entry<K, H>>
    decreases |es|
  {
    if |es| == 0 then t else RegisterAll(Register(t, es[0].pattern, es[0].handler), es[1..])
  }

  /** Registering entries under patterns that are all distinct, and new to
      the table, appends them in registration order. */
  lemma {:induction false} RegisterAllNew<K, H>(t: seq<Entry<K, H>>, es: seq<Entry<K, H>>)
    requires UniquePatterns(t + es)
    ensures RegisterAll(t, es) == t + es
    decreases |es|
  {
    if |es| > 0 {
      var e := es[0];
      forall i | 0 <= i < |t| ensures t[i].pattern != e.pattern {
        assert (t + es)[i] == t[i] && (t + es)[|t|] == e;
      }
      RegisterNew(t, e.pattern, e.handler);
      assert (t + [e]) + es[1..] == t + es;
      RegisterAllNew(t + [e], es[1..]);
    }
  }

  /** In a table without duplicate keys, registering keeps the keys distinct
      and leaves the new handler under the pattern. */
  lemma {:induction false} RegisterUnique<K, H>(t: seq<Entry<K, H>>, pattern: K, handler: H)
    requires UniquePatterns(t)
    ensures UniquePatterns(Register(t, pattern, handler))
    ensures forall i :: 0 <= i < |Register(t, pattern, handler)|
                        && Register(t, pattern, handler)[i].pattern == pattern ==>
                          Register(t, pattern, handler)[i].handler == handler
    decreases |t|
  {
    var r := Register(t, pattern, handler);
    if |t| > 0 && t[0].pattern == pattern {
      assert r == [Entry(pattern, handler)] + t[1..];
      forall i | 0 < i < |r| ensures r[i].pattern != pattern {
        assert r[i] == t[i];
      }
    } else if |t| > 0 {
      var rest := Register(t[1..], pattern, handler);
      RegisterUnique(t[1..], pattern, handler);
      assert r == [t[0]] + rest;
      forall j | 0 < j < |r| ensures r[j].pattern != t[0].pattern {
        assert r[j].pattern == Patterns(rest)[j - 1];
        if j - 1 < |t| - 1 {
          assert Patterns(rest)[j - 1] == Patterns(t[1..])[j - 1] == t[j].pattern;
        }
      }
    }
  }

  /** Entry `i` is the first entry whose pattern is found in `text`. */
  predicate FirstMatchAt<K, H>(t: seq<Entry<K, H>>, search: Search<K>, text: string, i: nat) {
    && i < |t|
    && search(t[i].pattern, text).Some?
    && forall j :: 0 <= j < i ==> search(t[j].pattern, text).None?
  }

  /** The loop of `serve` from position `from` on: the index of the first
      entry at or after `from` whose pattern is found in `text`. */
  function Scan<K, H>(t: seq<Entry<K, H>>, search: Search<K>, text: string, from: nat): (r: Option<nat>)
    requires from <= |t|
    ensures r.Some? ==> from <= r.value < |t| && search(t[r.value].pattern, text).Some?
    ensures r.Some? ==> forall j :: from <= j < r.value ==> search(t[j].pattern, text).None?
    ensures r.None? ==> forall j :: from <= j < |t| ==> search(t[j].pattern, text).None?
    decreases |t| - from
  {
    if from == |t| then None
    else if search(t[from].pattern, text).Some? then Some(from)
    else Scan(t, search, text, from + 1)
  }

  /** Calling a handler with the groups of its match. */
  function Call<H, R>(invoke: (H, Option<string>, Option<string>) -> R, h: H, g: Groups): R {
    invoke(h, g.route, g.msg)
  }

  /** `MossBot.serve` on the message body `text`: the result of the handler of
      the earliest-registered matching pattern, or `None` when no pattern is
      found. No later handler is called. */
  function Serve<K, H, R>(t: seq<Entry<K, H>>, search: Search<K>,
                       invoke: (H, Option<string>, Option<string>) -> R,
                       text: string): (r: Option<R>)
    ensures r.None? <==> forall j :: 0 <= j < |t| ==> search(t[j].pattern, text).None?
    ensures forall i: nat :: FirstMatchAt(t, search, text, i) ==>
              r == Some(Call(invoke, t[i].handler, search(t[i].pattern, text).value))
  {
    match Scan(t, search, text, 0)
    case None => None
    case Some(i) => Some(Call(invoke, t[i].handler, search(t[i].pattern, text).value))
  }

  /** Only the first match matters: appending entries behind a matching one
      does not change what `serve` returns. */
  lemma {:induction false} ServeIgnoresLaterEntries<K, H, R>(
    t: seq<Entry<K, H>>, more: seq<Entry<K, H>>, search: Search<K>,
    invoke: (H, Option<string>, Option<string>) -> R, text: string)
    requires exists j :: 0 <= j < |t| && search(t[j].pattern, text).Some?
    ensures Serve(t + more, search, invoke, text) == Serve(t, search, invoke, text)
  {
    var j :| 0 <= j < |t| && search(t[j].pattern, text).Some?;
    var i := Scan(t, search, text, 0).value;
    assert FirstMatchAt(t, search, text, i);
    assert FirstMatchAt(t + more, search, text, i);
  }

  /** Registering a second handler under a pattern that is already present
      makes `serve` answer, where that pattern is the first match, with the new
      handler, in the position the pattern was first registered at. */
  lemma {:induction false} ReRegisterKeepsPosition<K, H, R>(
    t: seq<Entry<K, H>>, pattern: K, h: H, search: Search<K>,
    invoke: (H, Option<string>, Option<string>) -> R, text: string, i: nat)
    requires UniquePatterns(t)
    requires FirstMatchAt(t, search, text, i) && t[i].pattern == pattern
    ensures Serve(Register(t, pattern, h), search, invoke, text)
            == Some(Call(invoke, h, search(pattern, text).value))
  {
    var r := Register(t, pattern, h);
    RegisterUnique(t, pattern, h);
    assert pattern in Patterns(t) by { assert Patterns(t)[i] == pattern; }
    assert |r| == |t| by { assert |Patterns(r)| == |Patterns(t)|; }
    forall j | 0 <= j < i ensures r[j] == t[j] {
      assert t[j].pattern != pattern;
    }
    assert r[i].pattern == pattern by { assert Patterns(r)[i] == Patterns(t)[i]; }
    assert FirstMatchAt(r, search, text, i);
  }
}
