/** How the HTTP server assembles the body of a PUT or POST request over several calls of its
    access handler. */
module Upload {
  import opened Collections
  import opened Wrappers

  type Bytes = string

  const NUL: char := '\0'

  /** What the handler keeps for a connection between calls: nothing, the address of its marker,
      or a buffer of its own (whose terminating NUL is left out). */
  datatype Kept = Null | Marker | Buffer(bytes: Bytes)

  /** The C string that starts a buffer: everything before its first NUL. */
  function CString(s: Bytes): (c: Bytes)
    ensures c <= s && NUL !in c
    ensures |c| < |s| ==> s[|c|] == NUL
  {
    if s == [] || s[0] == NUL then [] else [s[0]] + CString(s[1..])
  }

  method StrLen(s: Bytes) returns (n: nat)
    ensures n == |CString(s)|
  {
    n := 0;
    while n < |s| && s[n] != NUL
      invariant n <= |s|
      invariant |CString(s)| == n + |CString(s[n..])|
    {
      assert s[n..][1..] == s[n + 1..];
      n := n + 1;
    }
  }

  /** The buffer after a chunk: it is appended at the buffer's first NUL. */
  function Appended(kept: Kept, chunk: Bytes): Bytes
    requires !kept.Marker?
  {
    if kept.Null? then chunk else if chunk == [] then kept.bytes else CString(kept.bytes) + chunk
  }

  /** One call with a chunk: what is kept, and the body if the call dispatches the request. */
  function Call(kept: Kept, chunk: Bytes): (Kept, Option<Bytes>) {
    if chunk != [] then (Buffer(Appended(if kept.Marker? then Null else kept, chunk)), None)
    else if kept.Null? then (Marker, None)
    else (Null, Some(CString(Appended(if kept.Marker? then Null else kept, []))))
  }

  class Connection {
    var kept: Kept
    var uploadSize: nat
    ghost var bodies: seq<Bytes>

    constructor ()
      ensures kept == Null && bodies == []
    {
      kept, uploadSize, bodies := Null, 0, [];
    }

    /** Only ever called without the marker. */
    method ReadPostBody(upload: Bytes)
      requires !kept.Marker? && uploadSize == |upload|
      modifies this`kept, this`uploadSize
      ensures kept == Buffer(Appended(old(kept), upload)) && uploadSize == 0
    {
      if kept.Null? {
        kept, uploadSize := Buffer(upload), 0;
        return;
      }
      if uploadSize == 0 {
        return;
      }
      var n := StrLen(kept.bytes);
      assert kept.bytes[..n] == CString(kept.bytes);
      kept, uploadSize := Buffer(kept.bytes[..n] + upload), 0;
    }

    /** Only ever called without the marker. */
    method FreeKept()
      requires !kept.Marker?
      modifies this`kept
      ensures kept == Null
    {
      if !kept.Null? {
        kept := Null;
      }
    }

    /** The PUT and POST part of the access handler; a dispatch hands `body` to one route. */
    method AccessHandler(upload: Bytes) returns (body: Option<Bytes>)
      modifies this
      ensures (kept, body) == Call(old(kept), upload)
      ensures uploadSize == 0
      ensures bodies == old(bodies) + if body.Some? then [body.value] else []
    {
      uploadSize := |upload|;
      if uploadSize > 0 {
        if kept.Marker? {
          kept := Null;
        }
        ReadPostBody(upload);
        return None;
      }
      if kept.Null? {
        kept := Marker;
        return None;
      }
      if kept.Marker? {
        kept := Null;
      }
      ReadPostBody(upload);
      var n := StrLen(kept.bytes);
      assert kept.bytes[..n] == CString(kept.bytes);
      body := Some(kept.bytes[..n]);
      bodies := bodies + [body.value];
      FreeKept();
    }

    /** A whole request: the call with the headers, one call per chunk, the last call. */
    method Request(chunks: seq<Bytes>)
      requires kept == Null
      modifies this
      ensures (kept, bodies)
        == (CallAll(Null, RequestCalls(chunks)).0, old(bodies) + CallAll(Null, RequestCalls(chunks)).1)
    {
      var calls := RequestCalls(chunks);
      var i := 0;
      assert calls[0..] == calls;
      while i < |calls|
        invariant 0 <= i <= |calls|
        invariant CallAll(kept, calls[i..]).0 == CallAll(Null, calls).0
        invariant bodies + CallAll(kept, calls[i..]).1 == old(bodies) + CallAll(Null, calls).1
      {
        NextCall(kept, calls, i, bodies);
        var body := AccessHandler(calls[i]);
        i := i + 1;
      }
      assert bodies + [] == bodies;
    }
  }

  lemma NextCall(kept: Kept, calls: seq<Bytes>, i: nat, before: seq<Bytes>)
    requires i < |calls|
    ensures var (next, body) := Call(kept, calls[i]);
      CallAll(kept, calls[i..]).0 == CallAll(next, calls[i + 1..]).0
      && before + CallAll(kept, calls[i..]).1
         == (before + if body.Some? then [body.value] else []) + CallAll(next, calls[i + 1..]).1
  {
    assert calls[i..][1..] == calls[i + 1..];
  }

  /** The calls of one request, with the chunk each one brings. */
  function RequestCalls(chunks: seq<Bytes>): seq<Bytes> {
    [[]] + chunks + [[]]
  }

  function CallAll(kept: Kept, calls: seq<Bytes>): (Kept, seq<Bytes>)
    decreases |calls|
  {
    if calls == [] then (kept, [])
    else
      var one := Call(kept, calls[0]);
      var more := CallAll(one.0, calls[1..]);
      (more.0, (if one.1.Some? then [one.1.value] else []) + more.1)
  }

  /** The chunks in order, each cut at its first NUL. */
  function Texts(chunks: seq<Bytes>): Bytes {
    if chunks == [] then [] else CString(chunks[0]) + Texts(chunks[1..])
  }

  lemma CStringOfMore(c: char, s: Bytes)
    ensures CString([c] + s) == if c == NUL then [] else [c] + CString(s)
  {
    assert ([c] + s)[1..] == s;
  }

  lemma {:induction false} CStringAppends(a: Bytes, b: Bytes)
    requires NUL !in a
    ensures CString(a + b) == a + CString(b)
  {
    if a == [] {
      assert a + b == b;
    } else {
      var c, rest := a[0], a[1..];
      assert c in a && a == [c] + rest;
      CStringAppends(rest, b);
      Associative([c], rest, b);
      CStringOfMore(c, rest + b);
      Associative([c], rest, CString(b));
    }
  }

  lemma {:induction false} CStringOfWhole(s: Bytes)
    ensures CString(s) == s <==> NUL !in s
  {
    if s != [] && s[0] != NUL {
      CStringOfWhole(s[1..]);
      assert s == [s[0]] + s[1..];
    }
  }

  lemma ChunkCall(kept: Kept, chunk: Bytes, later: seq<Bytes>)
    requires chunk != []
    ensures CallAll(kept, [chunk] + later)
      == CallAll(Buffer(Appended(if kept.Marker? then Null else kept, chunk)), later)
  {
    assert ([chunk] + later)[1..] == later;
    var more := CallAll(Buffer(Appended(if kept.Marker? then Null else kept, chunk)), later);
    assert [] + more.1 == more.1;
  }

  lemma FirstCall(later: seq<Bytes>)
    ensures CallAll(Null, [[]] + later) == CallAll(Marker, later)
  {
    assert ([[]] + later)[1..] == later;
    assert [] + CallAll(Marker, later).1 == CallAll(Marker, later).1;
  }

  lemma LastCall(kept: Kept)
    requires !kept.Null?
    ensures CallAll(kept, [[]]) == (Null, [CString(if kept.Marker? then [] else kept.bytes)])
  {
    var calls: seq<Bytes> := [[]];
    var body := CString(if kept.Marker? then [] else kept.bytes);
    assert Call(kept, calls[0]) == (Null, Some(body));
    assert calls[1..] == [] && CallAll(Null, calls[1..]) == (Null, []);
    assert [body] + [] == [body];
  }

  lemma FirstChunk(first: Bytes, rest: seq<Bytes>, chunks: seq<Bytes>)
    requires chunks == [first] + rest
    ensures Texts(chunks) == CString(first) + Texts(rest) && Join(chunks) == first + Join(rest)
  {
    assert chunks[1..] == rest;
  }

  lemma MoreText(text: Bytes, first: Bytes, rest: seq<Bytes>, chunks: seq<Bytes>)
    requires chunks == [first] + rest && NUL !in text
    ensures CString(text + first) + Texts(rest) == text + Texts(chunks)
  {
    FirstChunk(first, rest, chunks);
    CStringAppends(text, first);
    Associative(text, CString(first), Texts(rest));
  }

  /** From a buffer on, the chunks and the last call dispatch once. */
  lemma {:induction false} BufferDispatchesOnce(bytes: Bytes, chunks: seq<Bytes>)
    requires forall i :: 0 <= i < |chunks| ==> chunks[i] != []
    ensures CallAll(Buffer(bytes), chunks + [[]]) == (Null, [CString(bytes) + Texts(chunks)])
    decreases |chunks|
  {
    if chunks == [] {
      LastCall(Buffer(bytes));
      assert chunks + [[]] == [[]] && CString(bytes) + [] == CString(bytes);
    } else {
      var first, rest := chunks[0], chunks[1..];
      assert chunks + [[]] == [first] + (rest + [[]]);
      ChunkCall(Buffer(bytes), first, rest + [[]]);
      BufferDispatchesOnce(CString(bytes) + first, rest);
      MoreText(CString(bytes), first, rest, chunks);
    }
  }

  /** Every request dispatches exactly once and leaves nothing behind; its body is the chunks in
      order, each cut at its first NUL. */
  lemma DispatchesOnce(chunks: seq<Bytes>)
    requires forall i :: 0 <= i < |chunks| ==> chunks[i] != []
    ensures CallAll(Null, RequestCalls(chunks)) == (Null, [Texts(chunks)])
  {
    assert RequestCalls(chunks) == [[]] + (chunks + [[]]);
    FirstCall(chunks + [[]]);
    if chunks == [] {
      LastCall(Marker);
      assert chunks + [[]] == [[]];
    } else {
      var first, rest := chunks[0], chunks[1..];
      assert chunks + [[]] == [first] + (rest + [[]]);
      ChunkCall(Marker, first, rest + [[]]);
      BufferDispatchesOnce(first, rest);
    }
  }

  /** After a chunk with a NUL every later chunk begins with one. */
  ghost predicate NothingAfterNul(chunks: seq<Bytes>) {
    forall j, k :: 0 <= j < k < |chunks| && NUL in chunks[j] && chunks[k] != [] ==> chunks[k][0] == NUL
  }

  lemma {:induction false} AllCutAway(chunks: seq<Bytes>)
    ensures Texts(chunks) == [] <==> forall k :: 0 <= k < |chunks| && chunks[k] != [] ==> chunks[k][0] == NUL
    decreases |chunks|
  {
    if chunks != [] {
      AllCutAway(chunks[1..]);
      if Texts(chunks[1..]) == [] && (chunks[0] == [] || chunks[0][0] == NUL) {
        forall k | 0 <= k < |chunks| && chunks[k] != [] ensures chunks[k][0] == NUL {
          if k > 0 {
            assert chunks[k] == chunks[1..][k - 1];
          }
        }
      } else if Texts(chunks[1..]) != [] {
        var k :| 0 <= k < |chunks[1..]| && chunks[1..][k] != [] && chunks[1..][k][0] != NUL;
        assert chunks[k + 1] == chunks[1..][k];
      }
    }
  }

  lemma {:induction false} CStringStops(a: Bytes, b: Bytes)
    requires NUL in a
    ensures CString(a + b) == CString(a)
  {
    if a[0] != NUL {
      CStringStops(a[1..], b);
      assert (a + b)[1..] == a[1..] + b;
    }
  }

  lemma LateNuls(chunks: seq<Bytes>)
    requires chunks != [] && NUL in chunks[0]
    ensures NothingAfterNul(chunks)
      <==> forall k :: 0 <= k < |chunks[1..]| && chunks[1..][k] != [] ==> chunks[1..][k][0] == NUL
  {
    var rest := chunks[1..];
    if NothingAfterNul(chunks) {
      forall k | 0 <= k < |rest| && rest[k] != [] ensures rest[k][0] == NUL {
        assert rest[k] == chunks[k + 1];
      }
    }
    if forall k :: 0 <= k < |rest| && rest[k] != [] ==> rest[k][0] == NUL {
      forall j, k | 0 <= j < k < |chunks| && NUL in chunks[j] && chunks[k] != [] ensures chunks[k][0] == NUL {
        assert chunks[k] == rest[k - 1];
      }
    }
  }

  lemma EarlyText(chunks: seq<Bytes>)
    requires chunks != [] && NUL !in chunks[0]
    ensures NothingAfterNul(chunks) <==> NothingAfterNul(chunks[1..])
  {
    var rest := chunks[1..];
    if NothingAfterNul(chunks) {
      forall j, k | 0 <= j < k < |rest| && NUL in rest[j] && rest[k] != [] ensures rest[k][0] == NUL {
        assert rest[j] == chunks[j + 1] && rest[k] == chunks[k + 1];
      }
    }
    if NothingAfterNul(rest) {
      forall j, k | 0 <= j < k < |chunks| && NUL in chunks[j] && chunks[k] != [] ensures chunks[k][0] == NUL {
        assert j > 0;
        assert chunks[j] == rest[j - 1] && chunks[k] == rest[k - 1];
      }
    }
  }

  lemma TextThenMore(first: Bytes, rest: seq<Bytes>, chunks: seq<Bytes>)
    requires chunks == [first] + rest
    ensures NUL in first ==> (Texts(chunks) == CString(Join(chunks)) <==> Texts(rest) == [])
    ensures NUL !in first ==> (Texts(chunks) == CString(Join(chunks)) <==> Texts(rest) == CString(Join(rest)))
  {
    FirstChunk(first, rest, chunks);
    var a, b := Texts(rest), CString(Join(rest));
    if NUL in first {
      CStringStops(first, Join(rest));
      assert |CString(first) + a| == |CString(first)| + |a|;
    } else {
      CStringAppends(first, Join(rest));
      CStringOfWhole(first);
      assert (first + a)[|first|..] == a && (first + b)[|first|..] == b;
    }
  }

  /** The body is the text of the whole upload exactly when no chunk brings text after a NUL. */
  lemma {:induction false} BodyIsTextIff(chunks: seq<Bytes>)
    ensures Texts(chunks) == CString(Join(chunks)) <==> NothingAfterNul(chunks)
    decreases |chunks|
  {
    if chunks != [] {
      TextThenMore(chunks[0], chunks[1..], chunks);
      if NUL in chunks[0] {
        AllCutAway(chunks[1..]);
        LateNuls(chunks);
      } else {
        BodyIsTextIff(chunks[1..]);
        EarlyText(chunks);
      }
    }
  }

  lemma {:induction false} JoinedIsNulFree(chunks: seq<Bytes>)
    requires forall i :: 0 <= i < |chunks| ==> NUL !in chunks[i]
    ensures NUL !in Join(chunks)
  {
    if chunks != [] {
      JoinedIsNulFree(chunks[1..]);
    }
  }

  /** For every chunking of a body without NULs the request is dispatched once, with the body. */
  lemma NulFreeBodyArrives(chunks: seq<Bytes>)
    requires forall i :: 0 <= i < |chunks| ==> chunks[i] != [] && NUL !in chunks[i]
    ensures CallAll(Null, RequestCalls(chunks)) == (Null, [Join(chunks)])
  {
    DispatchesOnce(chunks);
    BodyIsTextIff(chunks);
    JoinedIsNulFree(chunks);
    CStringOfWhole(Join(chunks));
  }
}
