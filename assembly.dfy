/** Chunk-record assembly (the chapter loop of `process_volume`,
    chunk_chapters.py): every chapter of a volume index is split into
    scenes, every scene is chunked, and every chunk becomes a record whose
    id is `{order}_{scene}_{sub}`. The volume's chapter files are a map
    from file name to contents: a name outside it is a missing file. */
module Assembly {
  import opened Text
  import opened Scenes
  import opened Chunking

  datatype Option<T> = None | Some(value: T)

  /** A chunk record as written to `chunks.json`. */
  datatype ChunkRecord = ChunkRecord(
    chunkId: string,
    chapterOrder: int,
    chapterTitle: string,
    sceneIndex: nat,
    subChunkIndex: nat,
    text: string,
    tokenEstimate: nat)

  /** An entry of a volume's `index.json`. */
  datatype ChapterMeta = ChapterMeta(order: int, title: string, filename: Option<string>)

  /** The id `{order}_{scene}_{sub}`, the numbers in decimal. */
  function ChunkId(order: int, scene: nat, sub: nat): string {
    IntToString(order) + "_" + NatToString(scene) + "_" + NatToString(sub)
  }

  function MakeRecord(order: int, title: string, scene: nat, sub: nat, text: string): ChunkRecord {
    ChunkRecord(ChunkId(order, scene, sub), order, title, scene, sub, text, |text| / CHARS_PER_TOKEN)
  }

  /** The records of one scene, one per sub-chunk, in order. */
  function SceneRecords(order: int, title: string, scene: nat, subChunks: seq<string>): seq<ChunkRecord>
    decreases |subChunks|
  {
    if subChunks == [] then []
    else
      var n := |subChunks| - 1;
      SceneRecords(order, title, scene, subChunks[..n]) + [MakeRecord(order, title, scene, n, subChunks[n])]
  }

  /** The records of a chapter with the given scenes, scene after scene. */
  function ChapterRecords(order: int, title: string, scenes: seq<string>): seq<ChunkRecord>
    decreases |scenes|
  {
    if scenes == [] then []
    else
      var n := |scenes| - 1;
      ChapterRecords(order, title, scenes[..n]) + SceneRecords(order, title, n, Chunked(scenes[n], MAX_CHARS))
  }

  /** The chapter has a non-empty file name and its file exists. */
  predicate Readable(meta: ChapterMeta, files: map<string, string>) {
    meta.filename.Some? && meta.filename.value != "" && meta.filename.value in files
  }

  /** The records one index entry contributes: none for a skipped chapter. */
  function ChapterOf(meta: ChapterMeta, files: map<string, string>,
                     reSplit: string -> seq<string>): seq<ChunkRecord> {
    if Readable(meta, files)
    then ChapterRecords(meta.order, meta.title, KeptScenes(reSplit(files[meta.filename.value])))
    else []
  }

  /** The records of a whole volume, chapter after chapter in index order. */
  function VolumeRecords(index: seq<ChapterMeta>, files: map<string, string>,
                         reSplit: string -> seq<string>): seq<ChunkRecord>
    decreases |index|
  {
    if index == [] then []
    else
      var n := |index| - 1;
      VolumeRecords(index[..n], files, reSplit) + ChapterOf(index[n], files, reSplit)
  }

  /** The loop of `process_volume` over one chapter's scenes: each scene is
      chunked, and each sub-chunk becomes one record. */
  method AssembleChapter(order: int, title: string, scenes: seq<string>)
    returns (chapterChunks: seq<ChunkRecord>)
    ensures chapterChunks == ChapterRecords(order, title, scenes)
  {
    chapterChunks := [];
    for sceneIdx := 0 to |scenes|
      invariant chapterChunks == ChapterRecords(order, title, scenes[..sceneIdx])
    {
      var sceneText := scenes[sceneIdx];
      var subChunks := ChunkText(sceneText, MAX_CHARS);
      ghost var before := chapterChunks;
      for subIdx := 0 to |subChunks|
        invariant chapterChunks == before + SceneRecords(order, title, sceneIdx, subChunks[..subIdx])
      {
        var chunkContent := subChunks[subIdx];
        var chunkId := ChunkId(order, sceneIdx, subIdx);
        var chunkData := ChunkRecord(chunkId, order, title, sceneIdx, subIdx, chunkContent,
                                     |chunkContent| / CHARS_PER_TOKEN);
        chapterChunks := chapterChunks + [chunkData];
        SceneRecordsSnoc(order, title, sceneIdx, subChunks, subIdx);
      }
      assert subChunks[..|subChunks|] == subChunks;
      ChapterRecordsSnoc(order, title, scenes, sceneIdx);
    }
    assert scenes[..|scenes|] == scenes;
  }

  lemma SceneRecordsSnoc(order: int, title: string, scene: nat, subChunks: seq<string>, i: nat)
    requires i < |subChunks|
    ensures SceneRecords(order, title, scene, subChunks[..i + 1])
      == SceneRecords(order, title, scene, subChunks[..i]) + [MakeRecord(order, title, scene, i, subChunks[i])]
  {
    assert subChunks[..i + 1][..i] == subChunks[..i];
  }

  lemma ChapterRecordsSnoc(order: int, title: string, scenes: seq<string>, i: nat)
    requires i < |scenes|
    ensures ChapterRecords(order, title, scenes[..i + 1])
      == ChapterRecords(order, title, scenes[..i]) + SceneRecords(order, title, i, Chunked(scenes[i], MAX_CHARS))
  {
    assert scenes[..i + 1][..i] == scenes[..i];
  }

  /** The chapter loop of `process_volume`: chapters without a file name or
      whose file does not exist are skipped; the rest contribute their
      records in index order. */
  method ProcessVolume(index: seq<ChapterMeta>, files: map<string, string>,
                       reSplit: string -> seq<string>)
    returns (allChunks: seq<ChunkRecord>)
    ensures allChunks == VolumeRecords(index, files, reSplit)
  {
    allChunks := [];
    for i := 0 to |index|
      invariant allChunks == VolumeRecords(index[..i], files, reSplit)
    {
      assert index[..i + 1][..i] == index[..i];
      var chapterMeta := index[i];
      var filename := chapterMeta.filename;
      if filename.None? || filename.value == "" {
        continue;
      }
      if filename.value !in files {
        continue;
      }
      var rawText := files[filename.value];
      var scenes := SplitIntoScenes(rawText, reSplit);
      var chapterChunks := AssembleChapter(chapterMeta.order, chapterMeta.title, scenes);
      allChunks := allChunks + chapterChunks;
    }
    assert index[..|index|] == index;
  }

  /** Every record of a scene carries its position and its chunk. */
  lemma {:induction false} SceneRecordsShape(order: int, title: string, scene: nat, subChunks: seq<string>)
    ensures |SceneRecords(order, title, scene, subChunks)| == |subChunks|
    ensures forall k :: 0 <= k < |subChunks| ==>
      SceneRecords(order, title, scene, subChunks)[k] == MakeRecord(order, title, scene, k, subChunks[k])
    decreases |subChunks|
  {
    if subChunks != [] {
      var n := |subChunks| - 1;
      SceneRecordsShape(order, title, scene, subChunks[..n]);
    }
  }

  /** The number of records of a chapter: one per chunk of every scene. */
  function ChunkCount(scenes: seq<string>): nat
    decreases |scenes|
  {
    if scenes == [] then 0 else ChunkCount(scenes[..|scenes| - 1]) + |Chunked(scenes[|scenes| - 1], MAX_CHARS)|
  }

  /** Every record of a chapter is sub-chunk `sub` of scene `scene`, with
      the id `{order}_{scene}_{sub}`, the chapter's order and title, that
      chunk's text and the estimate `len(text) // 4`. */
  predicate WellFormed(r: ChunkRecord, order: int, title: string, scenes: seq<string>) {
    && r.sceneIndex < |scenes|
    && r.subChunkIndex < |Chunked(scenes[r.sceneIndex], MAX_CHARS)|
    && r.text == Chunked(scenes[r.sceneIndex], MAX_CHARS)[r.subChunkIndex]
    && r.chunkId == ChunkId(order, r.sceneIndex, r.subChunkIndex)
    && r.chapterOrder == order
    && r.chapterTitle == title
    && r.tokenEstimate == |r.text| / 4
  }

  lemma {:induction false} ChapterRecordsWellFormed(order: int, title: string, scenes: seq<string>)
    ensures |ChapterRecords(order, title, scenes)| == ChunkCount(scenes)
    ensures forall k :: 0 <= k < |ChapterRecords(order, title, scenes)| ==>
      WellFormed(ChapterRecords(order, title, scenes)[k], order, title, scenes)
    decreases |scenes|
  {
    if scenes != [] {
      var n := |scenes| - 1;
      var prefix := scenes[..n];
      ChapterRecordsWellFormed(order, title, prefix);
      var subs := Chunked(scenes[n], MAX_CHARS);
      SceneRecordsShape(order, title, n, subs);
      var head := ChapterRecords(order, title, prefix);
      var rs := ChapterRecords(order, title, scenes);
      forall k | 0 <= k < |rs|
        ensures WellFormed(rs[k], order, title, scenes)
      {
        if k < |head| {
          assert rs[k] == head[k];
          assert WellFormed(head[k], order, title, prefix);
          assert scenes[head[k].sceneIndex] == prefix[head[k].sceneIndex];
        } else {
          assert rs[k] == SceneRecords(order, title, n, subs)[k - |head|];
        }
      }
    }
  }

  /** `b` follows `a` in numbering: the next sub-chunk of the same scene,
      or the first sub-chunk of the next scene. */
  predicate Follows(a: ChunkRecord, b: ChunkRecord) {
    || (b.sceneIndex == a.sceneIndex && b.subChunkIndex == a.subChunkIndex + 1)
    || (b.sceneIndex == a.sceneIndex + 1 && b.subChunkIndex == 0)
  }

  /** Numbering is 0-based and consecutive: the first record is `(0, 0)`,
      each record follows its predecessor, and the last is in the last scene. */
  predicate Consecutive(rs: seq<ChunkRecord>) {
    && (rs != [] ==> rs[0].sceneIndex == 0 && rs[0].subChunkIndex == 0)
    && forall k :: 0 <= k < |rs| - 1 ==> Follows(rs[k], rs[k + 1])
  }

  lemma {:induction false} ChapterRecordsConsecutive(order: int, title: string, scenes: seq<string>)
    ensures Consecutive(ChapterRecords(order, title, scenes))
    ensures scenes != [] ==>
      && ChapterRecords(order, title, scenes) != []
      && ChapterRecords(order, title, scenes)[|ChapterRecords(order, title, scenes)| - 1].sceneIndex == |scenes| - 1
    decreases |scenes|
  {
    if scenes != [] {
      var n := |scenes| - 1;
      var prefix := scenes[..n];
      ChapterRecordsConsecutive(order, title, prefix);
      var subs := Chunked(scenes[n], MAX_CHARS);
      ChunkedNonEmpty(scenes[n], MAX_CHARS);
      SceneRecordsShape(order, title, n, subs);
      var head := ChapterRecords(order, title, prefix);
      var tail := SceneRecords(order, title, n, subs);
      var rs := ChapterRecords(order, title, scenes);
      assert rs == head + tail;
      forall k | 0 <= k < |rs| - 1
        ensures Follows(rs[k], rs[k + 1])
      {
        if k + 1 < |head| {
          assert rs[k] == head[k] && rs[k + 1] == head[k + 1];
        } else if k + 1 == |head| {
          assert rs[k] == head[|head| - 1] && rs[k + 1] == tail[0];
        } else {
          assert rs[k] == tail[k - |head|] && rs[k + 1] == tail[k + 1 - |head|];
        }
      }
    }
  }

  /** Record order: by scene, then by sub-chunk. */
  predicate Before(a: ChunkRecord, b: ChunkRecord) {
    a.sceneIndex < b.sceneIndex || (a.sceneIndex == b.sceneIndex && a.subChunkIndex < b.subChunkIndex)
  }

  /** Consecutive numbering puts the records in strictly increasing order. */
  lemma {:induction false} ConsecutiveIncreasing(rs: seq<ChunkRecord>, k: nat, l: nat)
    requires Consecutive(rs) && k < l < |rs|
    ensures Before(rs[k], rs[l])
    decreases l - k
  {
    if k + 1 < l {
      ConsecutiveIncreasing(rs, k + 1, l);
      assert Follows(rs[k], rs[k + 1]);
    } else {
      assert Follows(rs[k], rs[l]);
    }
  }

  /** Ids determine the numbering: `{order}_{scene}_{sub}` is unambiguous. */
  lemma ChunkIdInjective(o1: int, s1: nat, j1: nat, o2: int, s2: nat, j2: nat)
    requires ChunkId(o1, s1, j1) == ChunkId(o2, s2, j2)
    ensures o1 == o2 && s1 == s2 && j1 == j2
  {
    var a1, b1, c1 := IntToString(o1), NatToString(s1), NatToString(j1);
    var a2, b2, c2 := IntToString(o2), NatToString(s2), NatToString(j2);
    assert '_' !in b1 && '_' !in b2;
    assert a1 + "_" + b1 + "_" + c1 == a1 + ['_'] + (b1 + ['_'] + c1);
    assert a2 + "_" + b2 + "_" + c2 == a2 + ['_'] + (b2 + ['_'] + c2);
    SplitAtFirstMarker(a1, b1 + ['_'] + c1, a2, b2 + ['_'] + c2, '_');
    SplitAtFirstMarker(b1, c1, b2, c2, '_');
    IntToStringInjective(o1, o2);
    NatToStringInjective(s1, s2);
    NatToStringInjective(j1, j2);
  }

  /** Record ids are distinct within a chapter. */
  lemma ChapterIdsDistinct(order: int, title: string, scenes: seq<string>, k: nat, l: nat)
    requires k < l < |ChapterRecords(order, title, scenes)|
    ensures ChapterRecords(order, title, scenes)[k].chunkId != ChapterRecords(order, title, scenes)[l].chunkId
  {
    var rs := ChapterRecords(order, title, scenes);
    ChapterRecordsWellFormed(order, title, scenes);
    ChapterRecordsConsecutive(order, title, scenes);
    ConsecutiveIncreasing(rs, k, l);
    assert WellFormed(rs[k], order, title, scenes) && WellFormed(rs[l], order, title, scenes);
    if rs[k].chunkId == rs[l].chunkId {
      ChunkIdInjective(order, rs[k].sceneIndex, rs[k].subChunkIndex, order, rs[l].sceneIndex, rs[l].subChunkIndex);
    }
  }

  /** The records of a volume are its readable chapters' records, in
      index order; the records of skipped chapters are absent. */
  lemma {:induction false} VolumeRecordsAppend(index: seq<ChapterMeta>, more: seq<ChapterMeta>,
                                               files: map<string, string>,
                                               reSplit: string -> seq<string>)
    ensures VolumeRecords(index + more, files, reSplit)
      == VolumeRecords(index, files, reSplit) + VolumeRecords(more, files, reSplit)
    decreases |more|
  {
    if more == [] {
      assert index + more == index;
    } else {
      var n := |more| - 1;
      assert (index + more)[..|index + more| - 1] == index + more[..n];
      VolumeRecordsAppend(index, more[..n], files, reSplit);
    }
  }

  /** Every record of a volume comes from a chapter of the index that has a
      file, and carries that chapter's order and title. */
  lemma {:induction false} VolumeRecordSource(index: seq<ChapterMeta>, files: map<string, string>,
                                              reSplit: string -> seq<string>, k: nat) returns (j: nat)
    requires k < |VolumeRecords(index, files, reSplit)|
    ensures j < |index| && Readable(index[j], files)
    ensures VolumeRecords(index, files, reSplit)[k].chapterOrder == index[j].order
    ensures VolumeRecords(index, files, reSplit)[k].chapterTitle == index[j].title
    decreases |index|
  {
    var n := |index| - 1;
    var head := VolumeRecords(index[..n], files, reSplit);
    var tail := ChapterOf(index[n], files, reSplit);
    if k < |head| {
      j := VolumeRecordSource(index[..n], files, reSplit, k);
      assert index[..n][j] == index[j];
    } else {
      j := n;
      var meta := index[n];
      var scenes := KeptScenes(reSplit(files[meta.filename.value]));
      ChapterRecordsWellFormed(meta.order, meta.title, scenes);
      assert WellFormed(tail[k - |head|], meta.order, meta.title, scenes);
    }
  }

  /** A chapter that has no file name, or whose file is missing, adds nothing. */
  lemma SkippedChapter(meta: ChapterMeta, files: map<string, string>,
                       reSplit: string -> seq<string>)
    requires meta.filename.None? || meta.filename.value == "" || meta.filename.value !in files
    ensures VolumeRecords([meta], files, reSplit) == []
  {
    assert [meta][..0] == [];
  }

  lemma ExampleIdStrings()
    ensures ChunkId(1, 0, 0) == "1_0_0" && ChunkId(1, 1, 0) == "1_1_0"
  {
    assert NatToString(0) == "0" && NatToString(1) == "1" && IntToString(1) == "1";
  }

  /** A scene within the ceiling has the one record `(scene, 0)`. */
  lemma ShortSceneRecords(order: int, title: string, scene: nat, text: string)
    requires |text| <= MAX_CHARS
    ensures SceneRecords(order, title, scene, Chunked(text, MAX_CHARS)) == [MakeRecord(order, title, scene, 0, text)]
  {
    assert [text][..0] == [];
  }

  lemma ExampleChapter()
    ensures ChapterRecords(1, "1.00", ["Para A.", "Para B."]) ==
      [MakeRecord(1, "1.00", 0, 0, "Para A."), MakeRecord(1, "1.00", 1, 0, "Para B.")]
  {
    var scenes := ["Para A.", "Para B."];
    ChapterRecordsSnoc(1, "1.00", scenes, 0);
    ChapterRecordsSnoc(1, "1.00", scenes, 1);
    assert scenes[..0] == [] && scenes[..1] == ["Para A."] && scenes[..2] == scenes;
    ShortSceneRecords(1, "1.00", 0, "Para A.");
    ShortSceneRecords(1, "1.00", 1, "Para B.");
  }

  /** The worked example: order 1, "Para A.\n\n***\n\nPara B." gives the
      records `1_0_0` and `1_1_0`. */
  lemma ExampleIds()
    ensures ChapterRecords(1, "1.00", KeptScenes(["Para A.", "***", "Para B."])) ==
      [MakeRecord(1, "1.00", 0, 0, "Para A."), MakeRecord(1, "1.00", 1, 0, "Para B.")]
    ensures ChunkId(1, 0, 0) == "1_0_0" && ChunkId(1, 1, 0) == "1_1_0"
  {
    ExampleSplit();
    ExampleIdStrings();
    ExampleChapter();
  }
}
