/** Over any number of requests of one browser the split cookies behave as one variable
    holding a string. */
module CookieSplitterRefinement {
  import opened Wrappers
  import opened Exchange
  import opened CookieSplitter
  import Sizes = CookieSplitterSizes

  datatype Op = Write(value: string) | Clear | Read

  // ---- the simple form: one string --------------------------------------

  function SpecStep(content: string, op: Op): string {
    match op
    case Write(value) => value
    case Clear => ""
    case Read => content
  }

  function SpecAfter(content: string, ops: seq<Op>): string
    decreases |ops|
  {
    if ops == [] then content else SpecAfter(SpecStep(content, ops[0]), ops[1..])
  }

  function SpecReads(content: string, ops: seq<Op>): seq<string>
    decreases |ops|
  {
    if ops == [] then []
    else (if ops[0].Read? then [content] else []) + SpecReads(SpecStep(content, ops[0]), ops[1..])
  }

  function SpecRunReads(content: string, run: seq<seq<Op>>): seq<string>
    decreases |run|
  {
    if run == [] then [] else SpecReads(content, run[0]) + SpecRunReads(SpecAfter(content, run[0]), run[1..])
  }

  // ---- the cookies --------------------------------------------------------

  datatype Store = Store(prefix: string, cookies: nat)
  {
    function Content(v: View): string {
      UnsplitFirst(v, prefix, cookies)
    }

    function Step(v: View, op: Op): View {
      match op
      case Write(value) => SplitIntoCookies(v, prefix, value, cookies)
      case Clear => ClearSplit(v, prefix, cookies)
      case Read => v
    }

    function After(v: View, ops: seq<Op>): View
      decreases |ops|
    {
      if ops == [] then v else After(Step(v, ops[0]), ops[1..])
    }

    function Reads(v: View, ops: seq<Op>): seq<string>
      decreases |ops|
    {
      if ops == [] then []
      else (if ops[0].Read? then [Content(v)] else []) + Reads(Step(v, ops[0]), ops[1..])
    }

    /** One request after the other; the browser's jar is all that connects them. */
    function RunReads(jar: Jar, run: seq<seq<Op>>): seq<string>
      decreases |run|
    {
      if run == [] then []
      else Reads(Open(jar), run[0]) + RunReads(Respond(After(Open(jar), run[0])), run[1..])
    }

    /** Every cookie this request has filled so far is one the browser also sent: `clear`
        only removes what the browser sent. */
    ghost predicate ClearCovers(v: View) {
      forall i :: 1 <= i <= cookies && Written(v, i) ==> Received(v, prefix, i)
    }

    predicate Written(v: View, i: nat) {
      var name := CookieName(prefix, i);
      name in v.states && v.states[name].State? && v.states[name].value != ""
    }

    ghost predicate ClearsCover(v: View, ops: seq<Op>)
      decreases |ops|
    {
      ops != [] ==> (ops[0].Clear? ==> ClearCovers(v)) && ClearsCover(Step(v, ops[0]), ops[1..])
    }

    ghost predicate RunClearsCover(jar: Jar, run: seq<seq<Op>>)
      decreases |run|
    {
      run != [] ==>
        && ClearsCover(Open(jar), run[0])
        && RunClearsCover(Respond(After(Open(jar), run[0])), run[1..])
    }

    /** Cookies are filled from the first one on, and a response that carries an entry for
        any of them accounts for all of them. */
    ghost predicate Coherent(v: View) {
      && (forall i :: 1 <= i <= cookies && Received(v, prefix, i) ==> Received(v, prefix, 1))
      && (forall i :: 1 <= i <= cookies && Piece(v, prefix, i) != "" ==> Piece(v, prefix, 1) != "")
      && (forall i :: 1 <= i <= cookies && CookieName(prefix, i) !in v.states ==>
                        (HasNewer(v, prefix) ==> !Received(v, prefix, i)))
      && (!HasNewer(v, prefix) ==> forall i :: 1 <= i <= cookies ==> CookieName(prefix, i) !in v.states)
    }

    lemma {:induction false} ContentEmptyIff(v: View, k: nat)
      ensures UnsplitFirst(v, prefix, k) == "" <==> forall i :: 1 <= i <= k ==> Piece(v, prefix, i) == ""
    {
      if k == 0 {
      } else {
        ContentEmptyIff(v, k - 1);
      }
    }

    lemma {:induction false} SamePiecesSameContent(v: View, w: View, k: nat)
      requires forall i :: 1 <= i <= k ==> Piece(v, prefix, i) == Piece(w, prefix, i)
      ensures UnsplitFirst(v, prefix, k) == UnsplitFirst(w, prefix, k)
    {
      if k == 0 {
      } else {
        SamePiecesSameContent(v, w, k - 1);
      }
    }

    lemma {:induction false} ClearedAt(v: View, k: nat, i: nat)
      requires 1 <= i
      ensures Lookup(ClearFirst(v, prefix, k), CookieName(prefix, i))
           == if i <= k && Received(v, prefix, i) then Some(Unstate) else Lookup(v.states, CookieName(prefix, i))
    {
      if k == 0 {
      } else {
        ClearedAt(v, k - 1, i);
        CookieNamesDiffer(prefix, i, k);
      }
    }

    /** Reading after a clear gives nothing exactly when the clear covers what was written. */
    lemma ClearEmptiesIff(v: View)
      requires cookies >= 1 && Coherent(v)
      ensures Content(Step(v, Clear)) == "" <==> ClearCovers(v)
    {
      var w := Step(v, Clear);
      forall i | 1 <= i <= cookies
        ensures Piece(w, prefix, i) == "" <==> (Written(v, i) ==> Received(v, prefix, i))
      {
        ClearedAt(v, cookies, 1);
        ClearedAt(v, cookies, i);
        assert Lookup(w.states, CookieName(prefix, i)).Some? <==> CookieName(prefix, i) in w.states;
        assert HasNewer(w, prefix) <==> HasNewer(v, prefix) || Received(v, prefix, 1);
      }
      ContentEmptyIff(w, cookies);
    }

    lemma StepCoherent(v: View, op: Op)
      requires cookies >= 1 && Coherent(v)
      requires op.Clear? ==> ClearCovers(v)
      ensures Coherent(Step(v, op)) && Content(Step(v, op)) == SpecStep(Content(v), op)
    {
      match op
      case Read =>
      case Write(value) =>
        WriteCoherent(v, value);
        Sizes.ReadReturnsWritten(v, prefix, value, cookies);
      case Clear =>
        ClearCoherent(v);
        ClearEmptiesIff(v);
    }

    lemma WriteCoherent(v: View, value: string)
      requires cookies >= 1 && Coherent(v)
      ensures Coherent(Step(v, Write(value)))
    {
      var w, chunks := Step(v, Write(value)), Chunks(value, cookies);
      forall i | 1 <= i <= cookies
        ensures CookieName(prefix, i) in w.states && HasNewer(w, prefix)
        ensures Piece(w, prefix, i) != "" ==> Piece(w, prefix, 1) != ""
      {
        Sizes.WrittenAt(v.states, prefix, chunks, cookies, i);
        Sizes.PieceAfterSplit(v, prefix, value, cookies, i);
        Sizes.PieceAfterSplit(v, prefix, value, cookies, 1);
        var at := SplitValueAt(|value|, cookies);
        Sizes.CutsReachTheEnd(|value|, cookies);
        Sizes.ChunkLength(value, at, i - 1);
        Sizes.ChunkLength(value, at, 0);
      }
      assert forall i :: Received(w, prefix, i) == Received(v, prefix, i);
    }

    lemma ClearCoherent(v: View)
      requires cookies >= 1 && Coherent(v) && ClearCovers(v)
      ensures Coherent(Step(v, Clear))
    {
      var w := Step(v, Clear);
      ClearEmptiesIff(v);
      ContentEmptyIff(w, cookies);
      forall i | 1 <= i <= cookies
        ensures CookieName(prefix, i) in w.states <==> CookieName(prefix, i) in v.states || Received(v, prefix, i)
        ensures HasNewer(w, prefix) <==> HasNewer(v, prefix) || Received(v, prefix, 1)
        ensures Received(w, prefix, i) == Received(v, prefix, i)
      {
        ClearedAt(v, cookies, 1);
        ClearedAt(v, cookies, i);
      }
    }

    /** The next request reads what this one would have read at its end. */
    lemma RespondKeepsContent(v: View)
      requires cookies >= 1 && Coherent(v)
      ensures Coherent(Open(Respond(v))) && Content(Open(Respond(v))) == Content(v)
    {
      var w := Open(Respond(v));
      forall i | 1 <= i <= cookies
        ensures Piece(w, prefix, i) == Piece(v, prefix, i)
        ensures Received(w, prefix, i) <==> Piece(v, prefix, i) != ""
      {
        var name := CookieName(prefix, i);
        assert name in w.jar.split <==>
               name in v.jar.split.Keys + v.states.Keys && (name in v.states ==> v.states[name].State?);
      }
      SamePiecesSameContent(w, v, cookies);
    }

    /** The same holds, coherent or not, when the response accounts for every cookie. */
    lemma RespondKeepsFull(v: View)
      requires cookies >= 1
      requires forall i :: 1 <= i <= cookies ==> CookieName(prefix, i) in v.states
      ensures Content(Open(Respond(v))) == Content(v)
    {
      var w := Open(Respond(v));
      assert CookieName(prefix, 1) in v.states;
      forall i | 1 <= i <= cookies
        ensures Piece(w, prefix, i) == Piece(v, prefix, i)
      {
        var name := CookieName(prefix, i);
        assert name in w.jar.split <==>
               name in v.jar.split.Keys + v.states.Keys && (name in v.states ==> v.states[name].State?);
      }
      SamePiecesSameContent(w, v, cookies);
    }

    /** Clearing changes nothing when the browser sent nothing. */
    lemma {:induction false} NothingToClear(v: View, k: nat)
      requires forall i :: 1 <= i <= k ==> !Received(v, prefix, i)
      ensures ClearFirst(v, prefix, k) == v.states
    {
      if k == 0 {
      } else {
        NothingToClear(v, k - 1);
      }
    }

    /** The case that fails: on a fresh browser a write followed by a clear keeps the value, in
        this request and for the next one. */
    lemma ClearAfterWriteKeepsValue(value: string)
      requires cookies >= 1
      ensures var v := Step(Step(Open(Jar(None, map[])), Write(value)), Clear);
              Content(v) == value && Content(Open(Respond(v))) == value
    {
      var untouched := Open(Jar(None, map[]));
      var v := Step(untouched, Write(value));
      NothingToClear(v, cookies);
      assert Step(v, Clear) == v;
      WriteCoherent(untouched, value);
      Sizes.ReadReturnsWritten(untouched, prefix, value, cookies);
      RespondKeepsContent(v);
    }

    /** What a write and a clear in one request leave to the next one is nothing exactly when
        the clear covers the write, whatever the browser sent. */
    lemma ClearAfterWriteIff(v: View, value: string)
      requires cookies >= 1
      ensures var w := Step(v, Write(value));
              Content(Open(Respond(Step(w, Clear)))) == "" <==> ClearCovers(w)
    {
      var w := Step(v, Write(value));
      var z := Step(w, Clear);
      forall i | 1 <= i <= cookies
        ensures CookieName(prefix, i) in z.states
        ensures Piece(z, prefix, i) == "" <==> (Written(w, i) ==> Received(w, prefix, i))
      {
        ClearedWriteAt(v, value, 1);
        ClearedWriteAt(v, value, i);
      }
      RespondKeepsFull(z);
      ContentEmptyIff(z, cookies);
    }

    lemma ClearedWriteAt(v: View, value: string, i: nat)
      requires 1 <= i <= cookies
      ensures var w := Step(v, Write(value));
              var z := Step(w, Clear);
              && CookieName(prefix, i) in w.states
              && CookieName(prefix, i) in z.states
              && z.states[CookieName(prefix, i)] ==
                 if Received(w, prefix, i) then Unstate else w.states[CookieName(prefix, i)]
    {
      var w := Step(v, Write(value));
      Sizes.WrittenAt(v.states, prefix, Chunks(value, cookies), cookies, i);
      ClearedAt(w, cookies, i);
      assert Lookup(Step(w, Clear).states, CookieName(prefix, i)).Some?;
    }

    // ---- from any jar -------------------------------------------------------

    /** A write makes the next request coherent, whatever the browser sent with this one. */
    lemma WriteReachesNextRequest(v: View, value: string)
      requires cookies >= 1
      ensures var w := Open(Respond(Step(v, Write(value))));
              Coherent(w) && Content(w) == value
    {
      var w := Step(v, Write(value));
      forall i | 1 <= i <= cookies
        ensures CookieName(prefix, i) in w.states
        ensures Piece(w, prefix, i) != "" ==> Piece(w, prefix, 1) != ""
        ensures Received(Open(Respond(w)), prefix, i) <==> Piece(w, prefix, i) != ""
        ensures Piece(Open(Respond(w)), prefix, i) == Piece(w, prefix, i)
      {
        WrittenFromTheFront(v, value, i);
        FullRespondAt(w, i);
      }
      RespondKeepsFull(w);
      Sizes.ReadReturnsWritten(v, prefix, value, cookies);
    }

    lemma WrittenFromTheFront(v: View, value: string, i: nat)
      requires 1 <= i <= cookies
      ensures var w := Step(v, Write(value));
              && CookieName(prefix, i) in w.states && HasNewer(w, prefix)
              && (Piece(w, prefix, i) != "" ==> Piece(w, prefix, 1) != "")
    {
      Sizes.WrittenAt(v.states, prefix, Chunks(value, cookies), cookies, i);
      Sizes.PieceAfterSplit(v, prefix, value, cookies, i);
      Sizes.PieceAfterSplit(v, prefix, value, cookies, 1);
      var at := SplitValueAt(|value|, cookies);
      Sizes.CutsReachTheEnd(|value|, cookies);
      Sizes.ChunkLength(value, at, i - 1);
      Sizes.ChunkLength(value, at, 0);
    }

    /** A cookie the response accounts for arrives as the response says. */
    lemma FullRespondAt(v: View, i: nat)
      requires CookieName(prefix, i) in v.states && HasNewer(v, prefix)
      ensures Received(Open(Respond(v)), prefix, i) <==> Piece(v, prefix, i) != ""
      ensures Piece(Open(Respond(v)), prefix, i) == Piece(v, prefix, i)
    {
      var name, w := CookieName(prefix, i), Open(Respond(v));
      assert name in w.jar.split <==> v.states[name].State?;
    }

    /** A browser from which nothing is read sends nothing. */
    lemma NothingReadIsCoherent(jar: Jar)
      requires Content(Open(jar)) == ""
      ensures Coherent(Open(jar))
    {
      ContentEmptyIff(Open(jar), cookies);
      forall i | 1 <= i <= cookies
        ensures !Received(Open(jar), prefix, i)
      {
        assert Piece(Open(jar), prefix, i) == "";
      }
    }

    /** A clear by itself removes everything the browser sent. */
    lemma ClearReachesNextRequest(jar: Jar)
      ensures var w := Open(Respond(Step(Open(jar), Clear)));
              Coherent(w) && Content(w) == ""
    {
      var v := Step(Open(jar), Clear);
      var w := Open(Respond(v));
      forall i | 1 <= i <= cookies
        ensures Piece(w, prefix, i) == ""
      {
        var name := CookieName(prefix, i);
        ClearedAt(Open(jar), cookies, i);
        assert name in w.jar.split <==> name in v.jar.split && name !in v.states;
      }
      ContentEmptyIff(w, cookies);
      NothingReadIsCoherent(w.jar);
    }

    lemma {:induction false} RequestRefines(v: View, ops: seq<Op>)
      requires cookies >= 1 && Coherent(v) && ClearsCover(v, ops)
      ensures Reads(v, ops) == SpecReads(Content(v), ops)
      ensures Coherent(After(v, ops)) && Content(After(v, ops)) == SpecAfter(Content(v), ops)
      decreases |ops|
    {
      if ops == [] {
      } else {
        StepCoherent(v, ops[0]);
        RequestRefines(Step(v, ops[0]), ops[1..]);
      }
    }

    /** Main result: any run of requests, each any mix of writes, clears and reads, reads
        exactly what one string variable would have read. */
    lemma {:induction false} StoreRefinesOneString(jar: Jar, run: seq<seq<Op>>)
      requires cookies >= 1 && Coherent(Open(jar)) && RunClearsCover(jar, run)
      ensures RunReads(jar, run) == SpecRunReads(Content(Open(jar)), run)
      decreases |run|
    {
      if run == [] {
      } else {
        RequestRefines(Open(jar), run[0]);
        var v := After(Open(jar), run[0]);
        RespondKeepsContent(v);
        StoreRefinesOneString(Respond(v), run[1..]);
      }
    }

    // ---- when the side condition is met -------------------------------------

    /** No request writes and later clears: only a logout whose own request stored a token does,
        because it renewed the session's or brought one along. */
    ghost predicate NoWriteThenClear(ops: seq<Op>) {
      forall i, j :: 0 <= i < j < |ops| && ops[i].Write? ==> !ops[j].Clear?
    }

    lemma {:induction false} NoClearsCover(v: View, ops: seq<Op>)
      requires forall i :: 0 <= i < |ops| ==> !ops[i].Clear?
      ensures ClearsCover(v, ops)
      decreases |ops|
    {
      if ops == [] {
      } else {
        NoClearsCover(Step(v, ops[0]), ops[1..]);
      }
    }

    lemma {:induction false} UnwrittenClearsCover(v: View, ops: seq<Op>)
      requires NoWriteThenClear(ops)
      requires forall i :: 1 <= i <= cookies ==> !Written(v, i)
      ensures ClearsCover(v, ops)
      decreases |ops|
    {
      if ops == [] {
      } else {
        var w := Step(v, ops[0]);
        if ops[0].Write? {
          NoClearsCover(w, ops[1..]);
        } else {
          forall i | 1 <= i <= cookies
            ensures !Written(w, i)
          {
            assert !Written(v, i);
            if ops[0].Clear? {
              ClearedAt(v, cookies, i);
              assert Lookup(w.states, CookieName(prefix, i)).Some? <==> CookieName(prefix, i) in w.states;
            }
          }
          UnwrittenClearsCover(w, ops[1..]);
        }
      }
    }

    lemma {:induction false} HandlersClearsCover(jar: Jar, run: seq<seq<Op>>)
      requires forall r :: 0 <= r < |run| ==> NoWriteThenClear(run[r])
      ensures RunClearsCover(jar, run)
      decreases |run|
    {
      if run == [] {
      } else {
        UnwrittenClearsCover(Open(jar), run[0]);
        HandlersClearsCover(Respond(After(Open(jar), run[0])), run[1..]);
      }
    }
  }
}
