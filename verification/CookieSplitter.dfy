/** Cutting one long value over several cookies and putting it back together
    (server/session/cookie_splitter.ts). */
module CookieSplitter {
  import opened Wrappers
  import opened Text
  import opened Exchange

  const MAX_LENGTH_OF_COOKIE_BYTES: real := 4000.0
  const ESTIMATED_IRON_COOKIE_OVERHEAD: real := 1.5
  const MAX_LENGTH_PER_COOKIE: int := (MAX_LENGTH_OF_COOKIE_BYTES / ESTIMATED_IRON_COOKIE_OVERHEAD).Floor

  /** Deflate followed by base64, and the way back; decoding fails where inflate throws. */
  datatype Codec = Codec(encode: string -> string, decode: string -> Option<string>)

  /** What zlib promises: inflate undoes deflate, and no content inflates to anything. */
  ghost predicate Lossless(codec: Codec) {
    && codec.decode("") == None
    && forall content :: codec.decode(codec.encode(content)) == Some(content)
  }

  /** A lossless codec for concrete examples: it marks content with one character in front. */
  function MarkingCodec(): (codec: Codec)
    ensures Lossless(codec)
    ensures forall content :: codec.encode(content) != ""
  {
    Codec((content: string) => ['z'] + content, (s: string) => if s == "" then None else Some(s[1..]))
  }

  datatype Storage = Storage(cookiePrefix: string, additionalCookies: nat, codec: Codec)

  function CookieName(prefix: string, i: nat): string {
    prefix + Decimal(i)
  }

  lemma {:induction false} CookieNamesDiffer(prefix: string, i: nat, j: nat)
    ensures CookieName(prefix, i) == CookieName(prefix, j) ==> i == j
  {
    if CookieName(prefix, i) == CookieName(prefix, j) {
      assert Decimal(i) == CookieName(prefix, i)[|prefix|..];
      DecimalInjective(i, j);
    }
  }

  // ---- writing ----------------------------------------------------------

  /** `Math.ceil(a / b)` */
  function CeilDiv(a: nat, b: nat): (q: nat)
    requires b > 0
    ensures (q as int - 1) * b < a <= q * b
  {
    var q := (a + b - 1) / b;
    assert a + b - 1 == q * b + (a + b - 1) % b;
    q
  }

  /** Where the value is cut. With no cookies at all the source divides by zero and then
      never uses the infinite result. */
  function SplitValueAt(length: nat, cookies: nat): (at: int)
    ensures at >= 0
  {
    if length > MAX_LENGTH_PER_COOKIE * cookies && cookies > 0 then CeilDiv(length, cookies)
    else MAX_LENGTH_PER_COOKIE
  }

  /** `s.substring(from, to)` for from <= to: both ends are clamped to the length. */
  function Substring(s: string, from: nat, to: nat): string
    requires from <= to
  {
    s[Min(from, |s|)..Min(to, |s|)]
  }

  function Min(a: nat, b: nat): nat {
    if a < b then a else b
  }

  function Chunk(value: string, at: nat, i: nat): string {
    assert i * at <= (i + 1) * at;
    Substring(value, i * at, (i + 1) * at)
  }

  function Chunks(value: string, cookies: nat): seq<string> {
    seq(cookies, i requires 0 <= i < cookies => Chunk(value, SplitValueAt(|value|, cookies), i))
  }

  function PendingFor(chunk: string): Pending {
    if chunk == "" then Unstate else State(chunk)
  }

  /** The response cookies once the first `k` chunks have been written. */
  function WriteFirst(states: map<string, Pending>, prefix: string, chunks: seq<string>, k: nat): map<string, Pending>
    requires k <= |chunks|
  {
    if k == 0 then states
    else WriteFirst(states, prefix, chunks, k - 1)[CookieName(prefix, k) := PendingFor(chunks[k - 1])]
  }

  function SplitIntoCookies(v: View, prefix: string, value: string, cookies: nat): View {
    var chunks := Chunks(value, cookies);
    v.(states := WriteFirst(v.states, prefix, chunks, cookies))
  }

  method CutIntoChunks(value: string, cookies: nat) returns (values: seq<string>)
    ensures values == Chunks(value, cookies)
  {
    var splitValueAt: nat := MAX_LENGTH_PER_COOKIE;
    if |value| > MAX_LENGTH_PER_COOKIE * cookies && cookies > 0 {
      splitValueAt := CeilDiv(|value|, cookies);
    }
    values := [];
    for i := 1 to cookies + 1
      invariant |values| == i - 1
      invariant forall j {:trigger values[j]} :: 0 <= j < i - 1 ==> values[j] == Chunk(value, splitValueAt, j)
    {
      values := values + [Chunk(value, splitValueAt, i - 1)];
    }
  }

  method SplitValueIntoCookies(request: RawRequest, prefix: string, value: string, cookies: nat)
    modifies request`states
    ensures request.GetView() == SplitIntoCookies(old(request.GetView()), prefix, value, cookies)
  {
    var values := CutIntoChunks(value, cookies);
    for index := 0 to |values|
      invariant request.states == WriteFirst(old(request.states), prefix, values, index)
    {
      var cookieName := CookieName(prefix, index + 1);
      if values[index] == "" {
        request.Unstate(cookieName);
      } else {
        request.State(cookieName, values[index]);
      }
    }
  }

  // ---- reading ----------------------------------------------------------

  /** The response already carries an entry for the first cookie, so the received
      cookies are out of date. */
  predicate HasNewer(v: View, prefix: string) {
    CookieName(prefix, 1) in v.states
  }

  /** What cookie `i` contributes to the value. */
  function Piece(v: View, prefix: string, i: nat): string {
    var name := CookieName(prefix, i);
    if HasNewer(v, prefix) then
      if name in v.states && v.states[name].State? then v.states[name].value else ""
    else
    if name in v.jar.split then v.jar.split[name] else ""
  }

  function UnsplitFirst(v: View, prefix: string, k: nat): string {
    if k == 0 then "" else UnsplitFirst(v, prefix, k - 1) + Piece(v, prefix, k)
  }

  method UnsplitCookiesIntoValue(request: RawRequest, prefix: string, cookies: nat) returns (value: string)
    ensures value == UnsplitFirst(request.GetView(), prefix, cookies)
  {
    value := "";
    var requestHasNewerCookieState := CookieName(prefix, 1) in request.states;
    for i := 1 to cookies + 1
      invariant value == UnsplitFirst(request.GetView(), prefix, i - 1)
    {
      var cookieName := CookieName(prefix, i);
      if requestHasNewerCookieState && cookieName in request.states
         && request.states[cookieName].State? && request.states[cookieName].value != "" {
        value := value + request.states[cookieName].value;
      } else if !requestHasNewerCookieState && cookieName in request.jar.split
                && request.jar.split[cookieName] != "" {
        value := value + request.jar.split[cookieName];
      }
    }
  }

  // ---- clearing ---------------------------------------------------------

  /** The browser sent something in cookie `i`. */
  predicate Received(v: View, prefix: string, i: nat) {
    Truthy(Lookup(v.jar.split, CookieName(prefix, i)))
  }

  function ClearFirst(v: View, prefix: string, k: nat): map<string, Pending> {
    if k == 0 then v.states
    else if Received(v, prefix, k) then ClearFirst(v, prefix, k - 1)[CookieName(prefix, k) := Unstate]
    else ClearFirst(v, prefix, k - 1)
  }

  function ClearSplit(v: View, prefix: string, cookies: nat): View {
    v.(states := ClearFirst(v, prefix, cookies))
  }

  method ClearSplitCookies(request: RawRequest, prefix: string, cookies: nat)
    modifies request`states
    ensures request.GetView() == ClearSplit(old(request.GetView()), prefix, cookies)
  {
    for i := 1 to cookies + 1
      invariant request.states == ClearFirst(old(request.GetView()), prefix, i - 1)
    {
      var cookieName := CookieName(prefix, i);
      if Truthy(Lookup(request.jar.split, cookieName)) {
        request.Unstate(cookieName);
      }
    }
  }

  // ---- the compressed value ---------------------------------------------

  function StoreValue(v: View, content: string, storage: Storage): View {
    SplitIntoCookies(v, storage.cookiePrefix, storage.codec.encode(content), storage.additionalCookies)
  }

  function StoredValue(v: View, storage: Storage): Option<string> {
    storage.codec.decode(
      if storage.additionalCookies > 0
      then UnsplitFirst(v, storage.cookiePrefix, storage.additionalCookies) else "")
  }

  method SetExtraAuthStorage(request: RawRequest, content: string, storage: Storage)
    modifies request`states
    ensures request.GetView() == StoreValue(old(request.GetView()), content, storage)
  {
    var compressedContent := storage.codec.encode(content);
    SplitValueIntoCookies(request, storage.cookiePrefix, compressedContent, storage.additionalCookies);
  }

  /** None when decompression throws. */
  method GetExtraAuthStorageValue(request: RawRequest, storage: Storage) returns (content: Option<string>)
    ensures content == StoredValue(request.GetView(), storage)
  {
    var compressedContent := "";
    if storage.additionalCookies > 0 {
      compressedContent := UnsplitCookiesIntoValue(request, storage.cookiePrefix, storage.additionalCookies);
    }
    content := storage.codec.decode(compressedContent);
  }
}
