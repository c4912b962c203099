/** Size-bounded chunking of a scene (`chunk_text`, chunk_chapters.py).
    A scene within the ceiling is kept whole; a longer one is cut at line
    feeds into paragraphs, which are packed greedily, each counted as its
    length plus one for its line feed. A paragraph too large for any chunk
    is emitted alone, over the ceiling. */
module Chunking {
  import opened Text

  /** `MAX_TOKENS_PER_CHUNK * CHARS_PER_TOKEN`, the default ceiling. */
  const CHARS_PER_TOKEN: nat := 4
  const MAX_TOKENS_PER_CHUNK: nat := 4000
  const MAX_CHARS: nat := MAX_TOKENS_PER_CHUNK * CHARS_PER_TOKEN

  /** The packing weight of a list of paragraphs: each counts its length plus one. */
  function Weight(paras: seq<string>): nat
    decreases |paras|
  {
    if paras == [] then 0 else |paras[0]| + 1 + Weight(paras[1..])
  }

  /** The chunk a flush adds: the pending paragraphs joined by line feeds, if there are any. */
  function Flush(current: seq<string>): seq<string> {
    if current != [] then [Join("\n", current)] else []
  }

  /** The chunks the packing loop of `chunk_text` still appends, from the
      remaining paragraphs and the state (`current_chunk`, `current_length`),
      including the final flush. */
  function Pack(paras: seq<string>, maxChars: int, current: seq<string>, currentLength: int): seq<string>
    decreases |paras|
  {
    if paras == [] then Flush(current)
    else
      var para := paras[0];
      var paraLen := |para| + 1;
      if currentLength + paraLen > maxChars then
        var length' := if current != [] then 0 else currentLength;
        if paraLen > maxChars then Flush(current) + [para] + Pack(paras[1..], maxChars, [], length')
        else Flush(current) + Pack(paras[1..], maxChars, [para], length' + paraLen)
      else Pack(paras[1..], maxChars, current + [para], currentLength + paraLen)
  }

  /** The chunks `chunk_text(text, max_chars)` returns. */
  function Chunked(text: string, maxChars: int): seq<string> {
    if |text| <= maxChars then [text] else Pack(SplitLines(text), maxChars, [], 0)
  }

  /** A chunk within the bound: shorter than the ceiling, or a single paragraph. */
  predicate Fits(chunk: string, maxChars: int) {
    |chunk| < maxChars || '\n' !in chunk
  }

  /** `chunk_text`, as the loop over paragraphs that the source runs. */
  method ChunkText(text: string, maxChars: int) returns (chunks: seq<string>)
    ensures chunks == Chunked(text, maxChars)
  {
    if |text| <= maxChars {
      chunks := [text];
    } else {
      chunks := [];
      var paragraphs := SplitLines(text);
      var current: seq<string> := [];
      var currentLength := 0;
      ghost var packed := Pack(paragraphs, maxChars, current, currentLength);
      assert paragraphs[0..] == paragraphs;
      for i := 0 to |paragraphs|
        invariant chunks + Pack(paragraphs[i..], maxChars, current, currentLength) == packed
      {
        ghost var chunks0, current0, length0 := chunks, current, currentLength;
        ghost var rest := paragraphs[i + 1..];
        assert paragraphs[i..] == [paragraphs[i]] + rest;
        var para := paragraphs[i];
        var paraLen := |para| + 1;
        if currentLength + paraLen > maxChars {
          if current != [] {
            chunks := chunks + [Join("\n", current)];
            current := [];
            currentLength := 0;
          }
          if paraLen > maxChars {
            chunks := chunks + [para];
          } else {
            current := current + [para];
            currentLength := currentLength + paraLen;
          }
        } else {
          current := current + [para];
          currentLength := currentLength + paraLen;
        }
        assert chunks + Pack(rest, maxChars, current, currentLength)
          == chunks0 + Pack([para] + rest, maxChars, current0, length0) by {
          Step(chunks0, para, rest, maxChars, current0, length0, chunks, current, currentLength);
        }
      }
      if current != [] {
        chunks := chunks + [Join("\n", current)];
      }
    }
  }

  /** One iteration of the packing loop, from the state before it
      (`chunks`, `current`, `currentLength`) to the state after it. */
  predicate StepsTo(chunks: seq<string>, para: string, maxChars: int, current: seq<string>, currentLength: int,
                    chunks': seq<string>, current': seq<string>, currentLength': int) {
    var paraLen := |para| + 1;
    var length' := if current != [] then 0 else currentLength;
    if currentLength + paraLen > maxChars then
      if paraLen > maxChars then
        chunks' == chunks + Flush(current) + [para] && current' == [] && currentLength' == length'
      else
        chunks' == chunks + Flush(current) && current' == [para] && currentLength' == length' + paraLen
    else
      chunks' == chunks && current' == current + [para] && currentLength' == currentLength + paraLen
  }

  /** The packing loop's iteration consumes one paragraph of `Pack`. */
  lemma Step(chunks: seq<string>, para: string, rest: seq<string>, maxChars: int, current: seq<string>, currentLength: int,
             chunks': seq<string>, current': seq<string>, currentLength': int)
    requires StepsTo(chunks, para, maxChars, current, currentLength, chunks', current', currentLength')
    ensures chunks' + Pack(rest, maxChars, current', currentLength')
      == chunks + Pack([para] + rest, maxChars, current, currentLength)
  {
    if currentLength + |para| + 1 > maxChars {
      if |para| + 1 > maxChars {
        UnfoldAlone(para, rest, maxChars, current, currentLength);
      } else {
        UnfoldRestart(para, rest, maxChars, current, currentLength);
      }
    } else {
      UnfoldAppend(para, rest, maxChars, current, currentLength);
    }
  }

  /** Joining after a flushed chunk: the flushed paragraphs come first. */
  lemma JoinAfterFlush(current: seq<string>, paras: seq<string>, tail: seq<string>)
    requires paras != [] && tail != [] && Join("\n", tail) == Join("\n", paras)
    ensures Join("\n", Flush(current) + tail) == Join("\n", current + paras)
  {
    if current != [] {
      JoinAppend("\n", [Join("\n", current)], tail);
      JoinAppend("\n", current, paras);
    } else {
      assert Flush(current) + tail == tail;
      assert current + paras == paras;
    }
  }

  /** Joining around a paragraph emitted alone, given the join of what follows it. */
  lemma JoinAlone(current: seq<string>, para: string, rest: seq<string>, tail: seq<string>)
    requires rest == [] ==> tail == []
    requires rest != [] ==> tail != [] && Join("\n", tail) == Join("\n", rest)
    ensures Join("\n", Flush(current) + [para] + tail) == Join("\n", current + ([para] + rest))
  {
    if rest == [] {
      assert Flush(current) + [para] + tail == Flush(current) + [para];
      assert [para] + rest == [para];
      JoinAfterFlush(current, [para], [para]);
    } else {
      JoinAppend("\n", [para], tail);
      JoinAppend("\n", [para], rest);
      assert Flush(current) + [para] + tail == Flush(current) + ([para] + tail);
      JoinAfterFlush(current, [para] + rest, [para] + tail);
    }
  }

  /** The line-feed join of a packing that emits a chunk. */
  predicate JoinsTo(chunks: seq<string>, paras: seq<string>) {
    chunks != [] && Join("\n", chunks) == Join("\n", paras)
  }

  /** `Pack` on a paragraph emitted alone. */
  lemma UnfoldAlone(para: string, rest: seq<string>, maxChars: int, current: seq<string>, currentLength: int)
    requires currentLength + |para| + 1 > maxChars && |para| + 1 > maxChars
    ensures Pack([para] + rest, maxChars, current, currentLength)
      == Flush(current) + [para] + Pack(rest, maxChars, [], if current != [] then 0 else currentLength)
  {
    assert ([para] + rest)[1..] == rest;
  }

  /** `Pack` on a paragraph that starts a new chunk. */
  lemma UnfoldRestart(para: string, rest: seq<string>, maxChars: int, current: seq<string>, currentLength: int)
    requires currentLength + |para| + 1 > maxChars && |para| + 1 <= maxChars
    ensures Pack([para] + rest, maxChars, current, currentLength)
      == Flush(current) + Pack(rest, maxChars, [para], (if current != [] then 0 else currentLength) + |para| + 1)
  {
    assert ([para] + rest)[1..] == rest;
  }

  /** `Pack` on a paragraph added to the pending chunk. */
  lemma UnfoldAppend(para: string, rest: seq<string>, maxChars: int, current: seq<string>, currentLength: int)
    requires currentLength + |para| + 1 <= maxChars
    ensures Pack([para] + rest, maxChars, current, currentLength)
      == Pack(rest, maxChars, current + [para], currentLength + |para| + 1)
  {
    assert ([para] + rest)[1..] == rest;
  }

  lemma PackJoinAlone(para: string, rest: seq<string>, maxChars: int, current: seq<string>, currentLength: int)
    requires currentLength + |para| + 1 > maxChars && |para| + 1 > maxChars
    requires rest != [] ==> JoinsTo(Pack(rest, maxChars, [], if current != [] then 0 else currentLength), rest)
    ensures JoinsTo(Pack([para] + rest, maxChars, current, currentLength), current + ([para] + rest))
  {
    var tail := Pack(rest, maxChars, [], if current != [] then 0 else currentLength);
    UnfoldAlone(para, rest, maxChars, current, currentLength);
    if rest == [] {
      assert tail == [];
    }
    JoinAlone(current, para, rest, tail);
  }

  lemma PackJoinRestart(para: string, rest: seq<string>, maxChars: int, current: seq<string>, currentLength: int)
    requires currentLength + |para| + 1 > maxChars && |para| + 1 <= maxChars
    requires JoinsTo(Pack(rest, maxChars, [para], (if current != [] then 0 else currentLength) + |para| + 1), [para] + rest)
    ensures JoinsTo(Pack([para] + rest, maxChars, current, currentLength), current + ([para] + rest))
  {
    var tail := Pack(rest, maxChars, [para], (if current != [] then 0 else currentLength) + |para| + 1);
    UnfoldRestart(para, rest, maxChars, current, currentLength);
    JoinAfterFlush(current, [para] + rest, tail);
  }

  lemma PackJoinAppend(para: string, rest: seq<string>, maxChars: int, current: seq<string>, currentLength: int)
    requires currentLength + |para| + 1 <= maxChars
    requires JoinsTo(Pack(rest, maxChars, current + [para], currentLength + |para| + 1), current + [para] + rest)
    ensures JoinsTo(Pack([para] + rest, maxChars, current, currentLength), current + ([para] + rest))
  {
    UnfoldAppend(para, rest, maxChars, current, currentLength);
    assert current + [para] + rest == current + ([para] + rest);
  }

  /** Round trip of the packing loop: what it emits, joined with line feeds,
      is the pending paragraphs followed by the remaining ones. */
  lemma {:induction false} PackJoin(paras: seq<string>, maxChars: int, current: seq<string>, currentLength: int)
    requires paras != [] || current != []
    ensures Pack(paras, maxChars, current, currentLength) != []
    ensures Join("\n", Pack(paras, maxChars, current, currentLength)) == Join("\n", current + paras)
    decreases |paras|
  {
    if paras == [] {
      assert current + paras == current;
    } else {
      var para, rest := paras[0], paras[1..];
      assert paras == [para] + rest;
      var paraLen := |para| + 1;
      var length' := if current != [] then 0 else currentLength;
      if currentLength + paraLen > maxChars {
        if paraLen > maxChars {
          if rest != [] {
            PackJoin(rest, maxChars, [], length');
            assert [] + rest == rest;
          }
          PackJoinAlone(para, rest, maxChars, current, currentLength);
        } else {
          PackJoin(rest, maxChars, [para], length' + paraLen);
          PackJoinRestart(para, rest, maxChars, current, currentLength);
        }
      } else {
        PackJoin(rest, maxChars, current + [para], currentLength + paraLen);
        PackJoinAppend(para, rest, maxChars, current, currentLength);
      }
    }
  }

  /** `chunk_text` never returns an empty list, and keeps a short text whole. */
  lemma ChunkedNonEmpty(text: string, maxChars: int)
    ensures |Chunked(text, maxChars)| >= 1
    ensures |text| <= maxChars ==> Chunked(text, maxChars) == [text]
  {
    if |text| > maxChars {
      PackJoin(SplitLines(text), maxChars, [], 0);
    }
  }

  /** Round trip: `"\n".join(chunk_text(text, m)) == text` for every ceiling `m`. */
  lemma ChunkedRoundTrip(text: string, maxChars: int)
    ensures Join("\n", Chunked(text, maxChars)) == text
  {
    if |text| > maxChars {
      var paras := SplitLines(text);
      PackJoin(paras, maxChars, [], 0);
      assert [] + paras == paras;
      JoinSplitLines(text);
    }
  }

  /** The joined length of non-empty paragraphs is their weight less one. */
  lemma {:induction false} JoinLength(paras: seq<string>)
    requires paras != []
    ensures |Join("\n", paras)| + 1 == Weight(paras)
    decreases |paras|
  {
    if |paras| > 1 {
      JoinLength(paras[1..]);
    }
  }

  lemma {:induction false} WeightAppend(paras: seq<string>, para: string)
    ensures Weight(paras + [para]) == Weight(paras) + |para| + 1
    decreases |paras|
  {
    if paras != [] {
      assert (paras + [para])[1..] == paras[1..] + [para];
      WeightAppend(paras[1..], para);
    } else {
      assert [] + [para] == [para];
    }
  }

  /** The packing state the loop keeps: pending paragraphs weigh what
      `current_length` says, and never more than the ceiling. */
  predicate PendingOk(current: seq<string>, currentLength: int, maxChars: int) {
    && currentLength == Weight(current)
    && (current != [] ==> currentLength <= maxChars)
    && forall k :: 0 <= k < |current| ==> '\n' !in current[k]
  }

  /** Flushing pending paragraphs yields a chunk shorter than the ceiling. */
  lemma FlushFits(current: seq<string>, currentLength: int, maxChars: int)
    requires PendingOk(current, currentLength, maxChars)
    ensures forall c :: c in Flush(current) ==> |c| < maxChars
  {
    if current != [] {
      JoinLength(current);
    }
  }

  /** Size bound of the packing loop: every chunk it emits is shorter than
      the ceiling or is one paragraph. */
  lemma {:induction false} PackBound(paras: seq<string>, maxChars: int, current: seq<string>, currentLength: int)
    requires forall k :: 0 <= k < |paras| ==> '\n' !in paras[k]
    requires PendingOk(current, currentLength, maxChars)
    ensures forall c :: c in Pack(paras, maxChars, current, currentLength) ==> Fits(c, maxChars)
    decreases |paras|
  {
    FlushFits(current, currentLength, maxChars);
    if paras != [] {
      var para, rest := paras[0], paras[1..];
      var paraLen := |para| + 1;
      assert '\n' !in para;
      var flushed := Flush(current);
      WeightAppend(current, para);
      WeightAppend([], para);
      if currentLength + paraLen > maxChars {
        var length' := if current != [] then 0 else currentLength;
        if paraLen > maxChars {
          PackBound(rest, maxChars, [], length');
        } else {
          PackBound(rest, maxChars, [para], length' + paraLen);
        }
      } else {
        PackBound(rest, maxChars, current + [para], currentLength + paraLen);
      }
    }
  }

  /** The size bound of `chunk_text`: within the ceiling or a lone paragraph,
      and when the scene had to be cut, every packed chunk is strictly
      shorter than the ceiling (the `+ 1` per paragraph). */
  lemma ChunkedBound(text: string, maxChars: int)
    ensures forall c :: c in Chunked(text, maxChars) ==> |c| <= maxChars || '\n' !in c
    ensures |text| > maxChars ==> forall c :: c in Chunked(text, maxChars) ==> Fits(c, maxChars)
  {
    if |text| > maxChars {
      PackBound(SplitLines(text), maxChars, [], 0);
    }
  }
}
