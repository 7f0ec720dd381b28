/** How a value is divided over the cookies: nothing is lost, and no division does better. */
module CookieSplitterSizes {
  import opened Wrappers
  import opened Exchange
  import opened CookieSplitter

  function Concat(pieces: seq<string>): string {
    if pieces == [] then "" else Concat(pieces[..|pieces| - 1]) + pieces[|pieces| - 1]
  }

  /** How many cookies the pieces occupy: an empty piece needs none. */
  function Occupied(pieces: seq<string>): nat {
    if pieces == [] then 0
    else Occupied(pieces[..|pieces| - 1]) + if pieces[|pieces| - 1] == "" then 0 else 1
  }

  ghost predicate AllAtMost(pieces: seq<string>, bound: int) {
    forall i :: 0 <= i < |pieces| ==> |pieces[i]| <= bound
  }

  lemma MaxLengthPerCookie()
    ensures MAX_LENGTH_PER_COOKIE == 2666
  {
  }

  lemma CutsReachTheEnd(length: nat, cookies: nat)
    requires cookies > 0
    ensures cookies * SplitValueAt(length, cookies) >= length
    ensures SplitValueAt(length, cookies) > 0
  {
    MaxLengthPerCookie();
  }

  /** The next chunk takes up where the first `k` end. */
  lemma ChunkExtends(s: string, at: nat, k: nat)
    ensures s[..Min(k * at, |s|)] + Chunk(s, at, k) == s[..Min((k + 1) * at, |s|)]
  {
    assert k * at <= (k + 1) * at;
  }

  lemma {:induction false} FirstChunks(value: string, cookies: nat, k: nat)
    requires k <= cookies
    ensures Concat(Chunks(value, cookies)[..k]) == value[..Min(k * SplitValueAt(|value|, cookies), |value|)]
  {
    hide Chunk;
    hide Min;
    hide SplitValueAt;
    var chunks, at := Chunks(value, cookies), SplitValueAt(|value|, cookies);
    if k == 0 {
      assert chunks[..0] == [];
      NoChunks(value, at);
    } else {
      FirstChunks(value, cookies, k - 1);
      assert chunks[..k][..k - 1] == chunks[..k - 1];
      ChunkExtends(value, at, k - 1);
    }
  }

  lemma NoChunks(value: string, at: nat)
    ensures value[..Min(0 * at, |value|)] == ""
  {
  }

  lemma ChunksRestoreValue(value: string, cookies: nat)
    requires cookies > 0
    ensures Concat(Chunks(value, cookies)) == value
  {
    FirstChunks(value, cookies, cookies);
    CutsReachTheEnd(|value|, cookies);
    assert Chunks(value, cookies)[..cookies] == Chunks(value, cookies);
  }

  lemma {:induction false} ChunkLength(value: string, at: nat, i: nat)
    ensures |Chunk(value, at, i)| == Min(at, if i * at <= |value| then |value| - i * at else 0)
  {
    assert (i + 1) * at == i * at + at;
  }

  /** The safe size is respected exactly when the value fits the cookies available. */
  lemma ChunksFitIff(value: string, cookies: nat)
    requires cookies > 0
    ensures AllAtMost(Chunks(value, cookies), 2666) <==> |value| <= 2666 * cookies
  {
    MaxLengthPerCookie();
    var chunks, at := Chunks(value, cookies), SplitValueAt(|value|, cookies);
    forall i | 0 <= i < cookies
      ensures |chunks[i]| <= at
    {
      ChunkLength(value, at, i);
    }
    if |value| > 2666 * cookies {
      ChunkLength(value, at, 0);
      assert at > 2666 by {
        assert (at - 2666) * cookies == at * cookies - 2666 * cookies > 0;
      }
      assert |chunks[0]| > 2666;
    }
  }

  lemma {:induction false} LengthAtMost(pieces: seq<string>, bound: nat)
    requires AllAtMost(pieces, bound)
    ensures |Concat(pieces)| <= Occupied(pieces) * bound <= |pieces| * bound
  {
    if pieces == [] {
    } else {
      var front := pieces[..|pieces| - 1];
      LengthAtMost(front, bound);
      assert Occupied(pieces) == Occupied(front) || Occupied(pieces) == Occupied(front) + 1;
      assert (Occupied(front) + 1) * bound == Occupied(front) * bound + bound;
      assert |pieces| * bound == |front| * bound + bound;
    }
  }

  lemma {:induction false} OccupiedChunks(value: string, cookies: nat, k: nat)
    requires k <= cookies
    requires Occupied(Chunks(value, cookies)[..k]) > 0
    ensures (Occupied(Chunks(value, cookies)[..k]) - 1) * SplitValueAt(|value|, cookies) < |value|
  {
    var chunks, at := Chunks(value, cookies), SplitValueAt(|value|, cookies);
    assert chunks[..k][..k - 1] == chunks[..k - 1];
    if chunks[k - 1] == "" || Occupied(chunks[..k - 1]) == 0 {
      if Occupied(chunks[..k - 1]) > 0 {
        OccupiedChunks(value, cookies, k - 1);
      } else {
        assert |value| > 0;
      }
    } else {
      OccupiedAtMost(chunks[..k]);
      ChunkLength(value, at, k - 1);
      assert (k - 1) * at < |value|;
      assert (Occupied(chunks[..k]) - 1) * at <= (k - 1) * at by {
        MulMonotone(Occupied(chunks[..k]) - 1, k - 1, at);
      }
    }
  }

  lemma MulMonotone(a: nat, b: nat, c: nat)
    requires a <= b
    ensures a * c <= b * c
  {
    assert b * c == a * c + (b - a) * c;
  }

  lemma {:induction false} OccupiedAtMost(pieces: seq<string>)
    ensures Occupied(pieces) <= |pieces|
  {
    if pieces == [] {
    } else {
      OccupiedAtMost(pieces[..|pieces| - 1]);
    }
  }

  /** While the value fits, no other way of cutting it into safe pieces occupies fewer cookies. */
  lemma FewestCookies(value: string, cookies: nat, pieces: seq<string>)
    requires cookies > 0 && |value| <= 2666 * cookies
    requires Concat(pieces) == value && AllAtMost(pieces, 2666)
    ensures Occupied(Chunks(value, cookies)) <= Occupied(pieces)
  {
    MaxLengthPerCookie();
    LengthAtMost(pieces, 2666);
    var chunks := Chunks(value, cookies);
    assert chunks[..cookies] == chunks;
    if Occupied(chunks) > 0 {
      OccupiedChunks(value, cookies, cookies);
    }
  }

  /** When it does not fit, no way of cutting it into that many pieces has a smaller largest piece. */
  lemma SmallestLargestChunk(value: string, cookies: nat, pieces: seq<string>, bound: nat)
    requires cookies > 0 && |value| > 2666 * cookies
    requires Concat(pieces) == value && |pieces| == cookies && AllAtMost(pieces, bound)
    ensures AllAtMost(Chunks(value, cookies), bound)
  {
    MaxLengthPerCookie();
    LengthAtMost(pieces, bound);
    var at := SplitValueAt(|value|, cookies);
    assert at <= bound by {
      if at > bound {
        MulMonotone(bound, at - 1, cookies);
      }
    }
    forall i | 0 <= i < cookies
      ensures |Chunks(value, cookies)[i]| <= bound
    {
      ChunkLength(value, at, i);
    }
  }

  // ---- the written cookies ----------------------------------------------

  lemma {:induction false} WrittenAt(states: map<string, Pending>, prefix: string, chunks: seq<string>, k: nat, i: nat)
    requires 1 <= i <= k <= |chunks|
    ensures CookieName(prefix, i) in WriteFirst(states, prefix, chunks, k)
    ensures WriteFirst(states, prefix, chunks, k)[CookieName(prefix, i)] == PendingFor(chunks[i - 1])
  {
    if i == k {
    } else {
      WrittenAt(states, prefix, chunks, k - 1, i);
      CookieNamesDiffer(prefix, i, k);
    }
  }

  /** A write touches its own cookies only. */
  lemma {:induction false} WrittenElsewhere(
    states: map<string, Pending>, prefix: string, chunks: seq<string>, k: nat, name: string)
    requires k <= |chunks|
    requires forall i :: 1 <= i <= k ==> name != CookieName(prefix, i)
    ensures Lookup(WriteFirst(states, prefix, chunks, k), name) == Lookup(states, name)
  {
    if k == 0 {
    } else {
      assert name != CookieName(prefix, k);
      WrittenElsewhere(states, prefix, chunks, k - 1, name);
    }
  }

  lemma PieceAfterSplit(v: View, prefix: string, value: string, cookies: nat, i: nat)
    requires 1 <= i <= cookies
    ensures HasNewer(SplitIntoCookies(v, prefix, value, cookies), prefix)
    ensures Piece(SplitIntoCookies(v, prefix, value, cookies), prefix, i) == Chunks(value, cookies)[i - 1]
  {
    var chunks := Chunks(value, cookies);
    WrittenAt(v.states, prefix, chunks, cookies, 1);
    WrittenAt(v.states, prefix, chunks, cookies, i);
  }

  lemma {:induction false} ReadBackFirst(v: View, prefix: string, value: string, cookies: nat, k: nat)
    requires k <= cookies
    ensures UnsplitFirst(SplitIntoCookies(v, prefix, value, cookies), prefix, k) == Concat(Chunks(value, cookies)[..k])
  {
    var chunks := Chunks(value, cookies);
    if k == 0 {
    } else {
      ReadBackFirst(v, prefix, value, cookies, k - 1);
      PieceAfterSplit(v, prefix, value, cookies, k);
      assert chunks[..k][..k - 1] == chunks[..k - 1];
    }
  }

  /** Whatever the browser sent and whatever was written before, a read in the same request
      returns the value just written; with no cookies to write to, only the empty value survives. */
  lemma ReadReturnsWritten(v: View, prefix: string, value: string, cookies: nat)
    ensures UnsplitFirst(SplitIntoCookies(v, prefix, value, cookies), prefix, cookies) == value
       <==> cookies >= 1 || value == ""
  {
    if cookies >= 1 {
      ReadBackFirst(v, prefix, value, cookies, cookies);
      ChunksRestoreValue(value, cookies);
      assert Chunks(value, cookies)[..cookies] == Chunks(value, cookies);
    }
  }

  lemma StoredAfterStore(v: View, content: string, storage: Storage)
    requires storage.additionalCookies >= 1 && Lossless(storage.codec)
    ensures StoredValue(StoreValue(v, content, storage), storage) == Some(content)
  {
    ReadReturnsWritten(v, storage.cookiePrefix, storage.codec.encode(content), storage.additionalCookies);
  }
}
