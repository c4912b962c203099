/** The entity-extraction driver (`run_extraction_batch`,
    extract_entities.py) and its helpers: the reference list of known
    characters, the prompt, the deterministic mock generator, the code-fence
    cleanup, and the resumable batch loop with its checkpoint saves. The
    language-model client and `json.loads` are oracles; `save_json` is a
    log of the snapshots it would write. */
module Extraction {
  import opened Text
  import opened Assembly

  /** The JSON values the driver handles. Numbers keep their lexeme. */
  datatype Json =
    | JNull
    | JBool(b: bool)
    | JNum(lexeme: string)
    | JStr(s: string)
    | JArr(items: seq<Json>)
    | JObj(fields: seq<(string, Json)>)

  /** A record of `extracted_entities.json`. */
  datatype ExtractionRecord = ExtractionRecord(chunkId: string, chapterOrder: int, sceneIndex: nat, extraction: Json)

  /** An entry of the wiki's `characters.json`; only `title` is read. */
  datatype WikiEntry = WikiEntry(title: Option<string>)

  /** What the language-model call gives: its content, or an exception. */
  datatype CallResult = Ok(content: string) | Fail

  /** A prompt, given by what fills the two holes of the fixed template:
      the (truncated) reference list and the scene text. `RenderPrompt`
      gives the text sent to the model. */
  datatype Prompt = Prompt(known: string, scene: string)

  /** The run's configuration and oracles: mock mode (`USE_MOCK or
      force_mock`), the model call on a prompt, and `json.loads`
      (`None` for a `JSONDecodeError`). The model call sees the prompt
      through its holes; a call on the rendered text is the special case
      `p => call(RenderPrompt(p))`. */
  datatype Env = Env(isMock: bool, llm: Prompt -> CallResult, parse: string -> Option<Json>)

  // ----- get_known_characters_list -----

  /** The titles of the entries that have one, in order. */
  function Titles(entries: seq<WikiEntry>): seq<string>
    decreases |entries|
  {
    if entries == [] then []
    else
      var n := |entries| - 1;
      Titles(entries[..n]) + (if entries[n].title.Some? then [entries[n].title.value] else [])
  }

  function KnownCharacters(entries: seq<WikiEntry>): string {
    Join(", ", Titles(entries))
  }

  /** The titles are those of the entries that have one, in input order. */
  lemma {:induction false} TitlesAppend(a: seq<WikiEntry>, b: seq<WikiEntry>)
    ensures Titles(a + b) == Titles(a) + Titles(b)
    decreases |b|
  {
    if b == [] {
      assert a + b == a;
    } else {
      var n := |b| - 1;
      assert (a + b)[..|a + b| - 1] == a + b[..n];
      TitlesAppend(a, b[..n]);
    }
  }

  lemma {:induction false} TitlesExact(entries: seq<WikiEntry>)
    ensures forall t :: t in Titles(entries) <==> WikiEntry(Some(t)) in entries
    decreases |entries|
  {
    if entries != [] {
      var n := |entries| - 1;
      TitlesExact(entries[..n]);
      assert entries == entries[..n] + [entries[n]];
    }
  }

  /** Entries without a title contribute nothing. */
  lemma {:induction false} UntitledIgnored(entries: seq<WikiEntry>)
    requires forall k :: 0 <= k < |entries| ==> entries[k].title.None?
    ensures KnownCharacters(entries) == ""
    decreases |entries|
  {
    if entries != [] {
      UntitledIgnored(entries[..|entries| - 1]);
    }
  }

  // ----- construct_prompt -----

  const KNOWN_LIMIT: nat := 100000

  /** `known_characters[:100000]`. */
  function Truncated(known: string): (r: string)
    ensures |r| == if |known| < KNOWN_LIMIT then |known| else KNOWN_LIMIT
    ensures StartsWith(known, r)
  {
    if |known| < KNOWN_LIMIT then known else known[..KNOWN_LIMIT]
  }

  const PROMPT_HEAD: string :=
    "\n"
    + "    You are an expert Data Historian constructing a Knowledge Graph for \"The Wandering Inn\".\n"
    + "    \n"
    + "    TASK:\n"
    + "    Analyze the provided story snippet (SCENE) and extract all Characters present or mentioned.\n"
    + "    \n"
    + "    CONTEXT:\n"
    + "    We have a database of \"KNOWN CHARACTERS\" from the Wiki. \n"
    + "    - If you find a name from this list, use the exact spelling.\n"
    + "    - If you find a NEW character not in the list, extract them but mark as \"new\".\n"
    + "    - Be careful with aliases (e.g., \"The Necromancer\" might be \"Az\U{2019}kerash\"). Use the canonical name if clearly implied, or list the alias.\n"
    + "    \n"
    + "    KNOWN CHARACTERS (Reference):\n"
    + "    "
  const PROMPT_MIDDLE: string :=
    " \n"
    + "    (List truncated if needed, GLM-4 has 128k context)\n"
    + "\n"
    + "    SCENE TEXT:\n"
    + "    "
  const PROMPT_TAIL: string :=
    "\n"
    + "\n"
    + "    OUTPUT FORMAT (JSON ONLY):\n"
    + "    {\n"
    + "      \"characters\": [\n"
    + "        { \"name\": \"Canonical Name\", \"type\": \"known|new\", \"confidence\": 0.95, \"context\": \"Brief reason (e.g. 'mentioned as The Necromancer')\" }\n"
    + "      ],\n"
    + "      \"locations\": [\n"
    + "        { \"name\": \"Location Name\" }\n"
    + "      ]\n"
    + "    }\n"
    + "    \n"
    + "    If no entities are found, return empty lists.\n"
    + "    "

  /** `construct_prompt`: the template filled with the first 100000
      characters of the reference list and the scene. */
  function ConstructPrompt(chunkText: string, known: string): (p: Prompt)
    ensures p.scene == chunkText
    ensures StartsWith(known, p.known) && |p.known| <= KNOWN_LIMIT
  {
    Prompt(Truncated(known), chunkText)
  }

  /** The f-string of `construct_prompt`. */
  function RenderPrompt(p: Prompt): string {
    PROMPT_HEAD + p.known + PROMPT_MIDDLE + p.scene + PROMPT_TAIL
  }

  /** Only the first 100000 characters of the reference list reach the
      prompt: lists that agree on them give the same prompt. */
  lemma PromptIgnoresTail(chunkText: string, known1: string, known2: string)
    requires |known1| >= KNOWN_LIMIT && |known2| >= KNOWN_LIMIT
    requires known1[..KNOWN_LIMIT] == known2[..KNOWN_LIMIT]
    ensures ConstructPrompt(chunkText, known1) == ConstructPrompt(chunkText, known2)
  {
  }

  /** A list within the limit reaches the prompt whole. */
  lemma PromptKeepsShortList(chunkText: string, known: string)
    requires |known| <= KNOWN_LIMIT
    ensures RenderPrompt(ConstructPrompt(chunkText, known)) == PROMPT_HEAD + known + PROMPT_MIDDLE + chunkText + PROMPT_TAIL
  {
    if |known| == KNOWN_LIMIT {
      assert known[..KNOWN_LIMIT] == known;
    }
  }

  // ----- json.dumps -----

  /** JSON string escaping of quotes and backslashes. */
  function Escape(s: string): string
    decreases |s|
  {
    if s == [] then []
    else (if s[0] == '"' then "\\\"" else if s[0] == '\\' then "\\\\" else [s[0]]) + Escape(s[1..])
  }

  function Quote(s: string): string {
    "\"" + Escape(s) + "\""
  }

  /** `json.dumps` with its default separators `", "` and `": "`. */
  function Dumps(j: Json): string
    decreases j, 1
  {
    match j
    case JNull => "null"
    case JBool(b) => if b then "true" else "false"
    case JNum(lexeme) => lexeme
    case JStr(s) => Quote(s)
    case JArr(items) => "[" + DumpItems(j, items) + "]"
    case JObj(fields) => "{" + DumpFields(j, fields) + "}"
  }

  function DumpItems(ghost parent: Json, items: seq<Json>): string
    requires forall k :: 0 <= k < |items| ==> items[k] < parent
    decreases parent, 0, |items|
  {
    if items == [] then ""
    else if |items| == 1 then Dumps(items[0])
    else Dumps(items[0]) + ", " + DumpItems(parent, items[1..])
  }

  function DumpFields(ghost parent: Json, fields: seq<(string, Json)>): string
    requires forall k :: 0 <= k < |fields| ==> fields[k].1 < parent
    decreases parent, 0, |fields|
  {
    if fields == [] then ""
    else
      var first := Quote(fields[0].0) + ": " + Dumps(fields[0].1);
      if |fields| == 1 then first else first + ", " + DumpFields(parent, fields[1..])
  }

  /** No string, key or number lexeme of the value holds a backtick. */
  predicate TickFree(j: Json)
    decreases j
  {
    match j
    case JNum(lexeme) => '`' !in lexeme
    case JStr(s) => '`' !in s
    case JArr(items) => forall k :: 0 <= k < |items| ==> TickFree(items[k])
    case JObj(fields) => forall k :: 0 <= k < |fields| ==> '`' !in fields[k].0 && TickFree(fields[k].1)
    case _ => true
  }

  lemma {:induction false} EscapeTickFree(s: string)
    requires '`' !in s
    ensures '`' !in Escape(s)
    decreases |s|
  {
    if s != [] {
      EscapeTickFree(s[1..]);
    }
  }

  /** Serialising adds no backtick. */
  lemma {:induction false} DumpsTickFree(j: Json)
    requires TickFree(j)
    ensures '`' !in Dumps(j)
    decreases j, 1
  {
    match j
    case JNum(_) =>
    case JStr(s) => EscapeTickFree(s);
    case JArr(items) => DumpItemsTickFree(j, items);
    case JObj(fields) => DumpFieldsTickFree(j, fields);
    case _ =>
  }

  lemma {:induction false} DumpItemsTickFree(parent: Json, items: seq<Json>)
    requires forall k :: 0 <= k < |items| ==> items[k] < parent && TickFree(items[k])
    ensures '`' !in DumpItems(parent, items)
    decreases parent, 0, |items|
  {
    if items != [] {
      DumpsTickFree(items[0]);
      if |items| > 1 {
        DumpItemsTickFree(parent, items[1..]);
      }
    }
  }

  lemma {:induction false} DumpFieldsTickFree(parent: Json, fields: seq<(string, Json)>)
    requires forall k :: 0 <= k < |fields| ==> fields[k].1 < parent && '`' !in fields[k].0 && TickFree(fields[k].1)
    ensures '`' !in DumpFields(parent, fields)
    decreases parent, 0, |fields|
  {
    if fields != [] {
      EscapeTickFree(fields[0].0);
      DumpsTickFree(fields[0].1);
      if |fields| > 1 {
        DumpFieldsTickFree(parent, fields[1..]);
      }
    }
  }

  // ----- mock_generate_content -----

  function Character(name: string, kind: string, confidence: string, context: string): Json {
    JObj([("name", JStr(name)), ("type", JStr(kind)), ("confidence", JNum(confidence)), ("context", JStr(context))])
  }

  const ERIN: Json := Character("Erin Solstice", "known", "1.0", "Protagonist")
  const DRAGON: Json := Character("Dragon", "new", "0.9", "Antagonist in cave")
  const GOBLINS: Json := Character("Goblins", "known", "0.8", "Attackers")
  const INN: Json := JObj([("name", JStr("The Wandering Inn"))])

  /** The characters the mock reports, chosen by substrings in a fixed order. */
  function MockCharacters(chunkText: string): (r: seq<Json>)
    ensures ERIN in r <==> Contains(chunkText, "Erin")
    ensures DRAGON in r <==> Contains(chunkText, "Dragon")
    ensures GOBLINS in r <==> Contains(chunkText, "Goblins")
    ensures forall k :: 0 <= k < |r| ==> r[k] in [ERIN, DRAGON, GOBLINS]
  {
    (if Contains(chunkText, "Erin") then [ERIN] else [])
    + (if Contains(chunkText, "Dragon") then [DRAGON] else [])
    + (if Contains(chunkText, "Goblins") then [GOBLINS] else [])
  }

  /** The value the mock serialises: its characters and the one location. */
  function MockData(chunkText: string): Json {
    JObj([("characters", JArr(MockCharacters(chunkText))), ("locations", JArr([INN]))])
  }

  /** `mock_generate_content`: the mock value serialised. It holds no
      backtick, so no code fence. */
  function MockGenerateContent(chunkText: string): (r: string)
    ensures '`' !in r
  {
    MockTickFree(chunkText);
    DumpsTickFree(MockData(chunkText));
    Dumps(MockData(chunkText))
  }

  /** The mock's characters come in the order Erin, Dragon, Goblins, each at most once. */
  lemma MockOrder(chunkText: string, k: nat, l: nat)
    requires k < l < |MockCharacters(chunkText)|
    ensures MockCharacters(chunkText)[k] != MockCharacters(chunkText)[l]
    ensures MockCharacters(chunkText)[l] != ERIN
    ensures MockCharacters(chunkText)[k] != GOBLINS
  {
  }

  lemma CharacterTickFree(name: string, kind: string, confidence: string, context: string)
    requires '`' !in name && '`' !in kind && '`' !in confidence && '`' !in context
    ensures TickFree(Character(name, kind, confidence, context))
  {
    var fields := Character(name, kind, confidence, context).fields;
    assert fields[0].0 == "name" && fields[1].0 == "type" && fields[2].0 == "confidence" && fields[3].0 == "context";
  }

  lemma ErinTickFree() ensures TickFree(ERIN) {
    CharacterTickFree("Erin Solstice", "known", "1.0", "Protagonist");
  }

  lemma DragonTickFree() ensures TickFree(DRAGON) {
    CharacterTickFree("Dragon", "new", "0.9", "Antagonist in cave");
  }

  lemma GoblinsTickFree() ensures TickFree(GOBLINS) {
    CharacterTickFree("Goblins", "known", "0.8", "Attackers");
  }

  lemma InnTickFree() ensures TickFree(INN) {
    assert INN.fields[0].0 == "name";
  }

  lemma MockTickFree(chunkText: string)
    ensures TickFree(MockData(chunkText))
  {
    ErinTickFree();
    DragonTickFree();
    GoblinsTickFree();
    InnTickFree();
    var chars := MockCharacters(chunkText);
    forall k | 0 <= k < |chars|
      ensures TickFree(chars[k])
    {
      assert chars[k] in [ERIN, DRAGON, GOBLINS];
    }
    var data := MockData(chunkText);
    assert data.fields[0].0 == "characters" && data.fields[1].0 == "locations";
  }

  /** The mock output carries no code fence, so the cleanup leaves it alone. */
  lemma MockUnfenced(chunkText: string)
    ensures CleanFences(MockGenerateContent(chunkText)) == MockGenerateContent(chunkText)
  {
    NotContainsWithoutChar(MockGenerateContent(chunkText), FENCE_JSON, '`');
  }

  // ----- code-fence cleanup -----

  const FENCE_JSON: string := "```json"
  const FENCE: string := "```"

  /** The cleanup of lines 158-159: when the content holds a "```json" fence,
      every "```json" and then every "```" is removed; otherwise the content
      is kept. */
  function CleanFences(content: string): (r: string)
    ensures |r| <= |content|
    ensures !Contains(content, FENCE_JSON) ==> r == content
  {
    if Contains(content, FENCE_JSON) then RemoveAll(RemoveAll(content, FENCE_JSON), FENCE) else content
  }

  lemma ShortNotContains(s: string, pattern: string)
    requires |s| < |pattern|
    ensures !Contains(s, pattern)
  {
    if Contains(s, pattern) {
      var i := ContainsWitness(s, pattern);
    }
  }

  /** Removing a backtick triple from a string that starts with a non-backtick keeps that first character. */
  lemma KeepsLeadingChar(s: string)
    requires s != [] && s[0] != '`'
    ensures RemoveAll(s, FENCE) != [] && RemoveAll(s, FENCE)[0] == s[0]
  {
  }

  /** `s.replace("```", "")` leaves no "```": a triple formed across a
      removed occurrence would have been found earlier by the scan. */
  lemma {:induction false} NoFenceLeft(s: string)
    ensures !Contains(RemoveAll(s, FENCE), FENCE)
    decreases |s|
  {
    var r := RemoveAll(s, FENCE);
    if |s| < 3 {
      ShortNotContains(r, FENCE);
    } else if s[..3] == FENCE {
      NoFenceLeft(s[3..]);
    } else {
      var r' := RemoveAll(s[1..], FENCE);
      NoFenceLeft(s[1..]);
      assert r == [s[0]] + r';
      assert r[1..] == r';
      if s[0] == '`' {
        if s[1] != '`' {
          KeepsLeadingChar(s[1..]);
          assert r[1] != '`';
        } else {
          assert s[2] != '`';
          if |s[1..]| < 3 {
            assert r' == s[1..];
          } else {
            assert s[1..][..3] != FENCE;
            assert r' == [s[1]] + RemoveAll(s[2..], FENCE);
            KeepsLeadingChar(s[2..]);
          }
          assert r[2] != '`';
        }
      }
      assert !StartsWith(r, FENCE);
    }
  }

  /** After the cleanup no "```" remains whenever a fence was present. */
  lemma CleanFencesRemovesFences(content: string)
    requires Contains(content, FENCE_JSON)
    ensures !Contains(CleanFences(content), FENCE)
  {
    NoFenceLeft(RemoveAll(content, FENCE_JSON));
  }

  /** The cleanup is idempotent. */
  lemma CleanFencesIdempotent(content: string)
    ensures CleanFences(CleanFences(content)) == CleanFences(content)
  {
    var r := CleanFences(content);
    if Contains(content, FENCE_JSON) {
      CleanFencesRemovesFences(content);
      if Contains(r, FENCE_JSON) {
        ContainsPrefixOfPattern(r, FENCE_JSON, FENCE);
      }
    }
  }

  // ----- run_extraction_batch: the specification -----

  /** The chapter filter: the title is "1.00" or starts with it. */
  predicate Eligible(chunk: ChunkRecord) {
    chunk.chapterTitle == "1.00" || StartsWith(chunk.chapterTitle, "1.00")
  }

  /** `set(item["chunk_id"] for item in extracted_data)`. */
  function Ids(records: seq<ExtractionRecord>): set<string> {
    set r | r in records :: r.chunkId
  }

  /** The chunk passes the filter and the resume check. */
  predicate Selected(chunk: ChunkRecord, processed: set<string>) {
    Eligible(chunk) && chunk.chunkId !in processed
  }

  /** The content for a selected chunk: the mock's, or the model's answer to the prompt. */
  function Generate(chunk: ChunkRecord, known: string, env: Env): CallResult {
    if env.isMock then Ok(MockGenerateContent(chunk.text)) else env.llm(ConstructPrompt(chunk.text, known))
  }

  /** `{"error": "Invalid JSON", "raw": content}`. */
  function ErrorObj(raw: string): Json {
    JObj([("error", JStr("Invalid JSON")), ("raw", JStr(raw))])
  }

  /** The cleaned content parsed, or the error object holding it. */
  function ExtractionOf(content: string, env: Env): Json {
    var cleaned := CleanFences(content);
    match env.parse(cleaned)
    case Some(j) => j
    case None => ErrorObj(cleaned)
  }

  /** The record one chunk adds: none when skipped or when the call fails. */
  function Outcome(chunk: ChunkRecord, processed: set<string>, known: string, env: Env): Option<ExtractionRecord> {
    if !Selected(chunk, processed) then None
    else
      match Generate(chunk, known, env)
      case Fail => None
      case Ok(content) =>
        Some(ExtractionRecord(chunk.chunkId, chunk.chapterOrder, chunk.sceneIndex, ExtractionOf(content, env)))
  }

  function OptionToSeq(o: Option<ExtractionRecord>): seq<ExtractionRecord> {
    if o.Some? then [o.value] else []
  }

  /** The records a run appends, in chunk order. */
  function NewRecords(chunks: seq<ChunkRecord>, processed: set<string>, known: string, env: Env): seq<ExtractionRecord>
    decreases |chunks|
  {
    if chunks == [] then []
    else
      var n := |chunks| - 1;
      NewRecords(chunks[..n], processed, known, env) + OptionToSeq(Outcome(chunks[n], processed, known, env))
  }

  /** The prompts sent to the model, one per selected chunk outside mock mode. */
  function Calls(chunks: seq<ChunkRecord>, processed: set<string>, known: string, env: Env): seq<Prompt>
    decreases |chunks|
  {
    if chunks == [] then []
    else
      var n := |chunks| - 1;
      Calls(chunks[..n], processed, known, env)
        + (if Selected(chunks[n], processed) && !env.isMock then [ConstructPrompt(chunks[n].text, known)] else [])
  }

  /** `len(extracted_data) % 5 == 0`. */
  predicate IsCheckpoint(total: int) {
    total % 5 == 0
  }

  /** The snapshot saved after the append that brings the records to `resume + added`, if any. */
  function Checkpoint<T>(resume: seq<T>, added: seq<T>): seq<seq<T>> {
    if IsCheckpoint(|resume| + |added|) then [resume + added] else []
  }

  /** The checkpoints: after each append, a snapshot when the total number
      of records, resumed ones included, is a multiple of 5. */
  function Snapshots<T>(resume: seq<T>, added: seq<T>): seq<seq<T>>
    decreases |added|
  {
    if added == [] then []
    else
      var n := |added| - 1;
      Snapshots(resume, added[..n]) + Checkpoint(resume, added)
  }

  // ----- run_extraction_batch: the loop -----

  lemma NewRecordsSnoc(chunks: seq<ChunkRecord>, i: nat, processed: set<string>, known: string, env: Env)
    requires i < |chunks|
    ensures NewRecords(chunks[..i + 1], processed, known, env)
      == NewRecords(chunks[..i], processed, known, env) + OptionToSeq(Outcome(chunks[i], processed, known, env))
    ensures Calls(chunks[..i + 1], processed, known, env)
      == Calls(chunks[..i], processed, known, env)
        + (if Selected(chunks[i], processed) && !env.isMock then [ConstructPrompt(chunks[i].text, known)] else [])
  {
    assert chunks[..i + 1][..i] == chunks[..i];
  }

  lemma SnapshotsSnoc<T>(resume: seq<T>, added: seq<T>, r: T)
    ensures Snapshots(resume, added + [r])
      == Snapshots(resume, added) + Checkpoint(resume, added + [r])
  {
    var a := added + [r];
    assert a[..|a| - 1] == added;
  }

  /** The state of `run_extraction_batch` after the first `i` chunks. */
  ghost predicate Reached(chunks: seq<ChunkRecord>, i: nat, resume: seq<ExtractionRecord>, processed: set<string>,
                          known: string, env: Env, extractedData: seq<ExtractionRecord>,
                          saves: seq<seq<ExtractionRecord>>, calls: seq<Prompt>, count: nat)
    requires i <= |chunks|
  {
    var added := NewRecords(chunks[..i], processed, known, env);
    && extractedData == resume + added
    && saves == Snapshots(resume, added)
    && calls == Calls(chunks[..i], processed, known, env)
    && count == |added|
  }

  /** One chunk of the loop: append its outcome, save on a multiple of 5,
      log the prompt of a model call. */
  lemma Advance(chunks: seq<ChunkRecord>, i: nat, resume: seq<ExtractionRecord>, processed: set<string>,
                known: string, env: Env,
                extractedData: seq<ExtractionRecord>, saves: seq<seq<ExtractionRecord>>, calls: seq<Prompt>, count: nat,
                extractedData': seq<ExtractionRecord>, saves': seq<seq<ExtractionRecord>>, calls': seq<Prompt>, count': nat)
    requires i < |chunks|
    requires Reached(chunks, i, resume, processed, known, env, extractedData, saves, calls, count)
    requires extractedData' == extractedData + OptionToSeq(Outcome(chunks[i], processed, known, env))
    requires saves' == saves + (if Outcome(chunks[i], processed, known, env).Some? && IsCheckpoint(|extractedData'|) then [extractedData'] else [])
    requires calls' == calls + (if Selected(chunks[i], processed) && !env.isMock then [ConstructPrompt(chunks[i].text, known)] else [])
    requires count' == count + |OptionToSeq(Outcome(chunks[i], processed, known, env))|
    ensures Reached(chunks, i + 1, resume, processed, known, env, extractedData', saves', calls', count')
  {
    NewRecordsSnoc(chunks, i, processed, known, env);
    var added := NewRecords(chunks[..i], processed, known, env);
    var o := Outcome(chunks[i], processed, known, env);
    SavesStep(resume, added, o, extractedData', saves, saves');
  }

  lemma SavesStep(resume: seq<ExtractionRecord>, added: seq<ExtractionRecord>, o: Option<ExtractionRecord>,
                  extractedData': seq<ExtractionRecord>, saves: seq<seq<ExtractionRecord>>, saves': seq<seq<ExtractionRecord>>)
    requires saves == Snapshots(resume, added)
    requires extractedData' == resume + added + OptionToSeq(o)
    requires saves' == saves + (if o.Some? && IsCheckpoint(|extractedData'|) then [extractedData'] else [])
    ensures extractedData' == resume + (added + OptionToSeq(o))
    ensures saves' == Snapshots(resume, added + OptionToSeq(o))
  {
    if o.Some? {
      SnapshotsSnoc(resume, added, o.value);
      assert resume + (added + [o.value]) == extractedData';
    } else {
      assert added + [] == added;
    }
  }

  /** `run_extraction_batch`: returns the records as finally saved, the
      snapshots `save_json` writes (the checkpoints, then the final save),
      the prompts sent to the model, and `count`. Without a chunks file it
      returns at once and saves nothing. */
  method RunExtractionBatch(chunksFile: Option<seq<ChunkRecord>>, wiki: seq<WikiEntry>,
                            resume: seq<ExtractionRecord>, env: Env)
    returns (extractedData: seq<ExtractionRecord>, saves: seq<seq<ExtractionRecord>>, calls: seq<Prompt>, count: nat)
    ensures chunksFile.None? ==> extractedData == resume && saves == [] && calls == [] && count == 0
    ensures chunksFile.Some? ==>
      var added := NewRecords(chunksFile.value, Ids(resume), KnownCharacters(wiki), env);
      && extractedData == resume + added
      && saves == Snapshots(resume, added) + [extractedData]
      && calls == Calls(chunksFile.value, Ids(resume), KnownCharacters(wiki), env)
      && count == |added|
  {
    extractedData, saves, calls, count := resume, [], [], 0;
    if chunksFile.None? {
      return;
    }
    var chunks := chunksFile.value;
    var knownCharsStr := KnownCharacters(wiki);
    var processedIds := Ids(resume);
    for i := 0 to |chunks|
      invariant Reached(chunks, i, resume, processedIds, knownCharsStr, env, extractedData, saves, calls, count)
    {
      ghost var extractedData0, saves0, calls0, count0 := extractedData, saves, calls, count;
      ghost var outcome := Outcome(chunks[i], processedIds, knownCharsStr, env);
      var chunk := chunks[i];
      if chunk.chapterTitle != "1.00" && !StartsWith(chunk.chapterTitle, "1.00") {
        Advance(chunks, i, resume, processedIds, knownCharsStr, env, extractedData0, saves0, calls0, count0,
                extractedData, saves, calls, count);
        continue;
      }
      if chunk.chunkId in processedIds {
        Advance(chunks, i, resume, processedIds, knownCharsStr, env, extractedData0, saves0, calls0, count0,
                extractedData, saves, calls, count);
        continue;
      }
      var prompt := ConstructPrompt(chunk.text, knownCharsStr);
      var response: CallResult;
      if env.isMock {
        response := Ok(MockGenerateContent(chunk.text));
      } else {
        calls := calls + [prompt];
        response := env.llm(prompt);
      }
      if response.Fail? {
        Advance(chunks, i, resume, processedIds, knownCharsStr, env, extractedData0, saves0, calls0, count0,
                extractedData, saves, calls, count);
        continue;
      }
      var content := response.content;
      if Contains(content, FENCE_JSON) {
        content := RemoveAll(RemoveAll(content, FENCE_JSON), FENCE);
      }
      var resultJson: Json;
      match env.parse(content) {
        case Some(j) => resultJson := j;
        case None => resultJson := ErrorObj(content);
      }
      var combinedRecord := ExtractionRecord(chunk.chunkId, chunk.chapterOrder, chunk.sceneIndex, resultJson);
      assert outcome == Some(combinedRecord);
      extractedData := extractedData + [combinedRecord];
      if |extractedData| % 5 == 0 {
        saves := saves + [extractedData];
      }
      count := count + 1;
      Advance(chunks, i, resume, processedIds, knownCharsStr, env, extractedData0, saves0, calls0, count0,
              extractedData, saves, calls, count);
    }
    assert chunks[..|chunks|] == chunks;
    saves := saves + [extractedData];
  }

  // ----- run_extraction_batch: properties -----

  /** A chunk yields a record exactly when it is selected and the call
      succeeds; the record carries the chunk's id, order and scene index. */
  lemma OutcomeSpec(chunk: ChunkRecord, processed: set<string>, known: string, env: Env)
    ensures Outcome(chunk, processed, known, env).Some?
      <==> Selected(chunk, processed) && Generate(chunk, known, env).Ok?
    ensures Outcome(chunk, processed, known, env).Some? ==>
      var r := Outcome(chunk, processed, known, env).value;
      && r.chunkId == chunk.chunkId
      && r.chapterOrder == chunk.chapterOrder
      && r.sceneIndex == chunk.sceneIndex
  {
  }

  /** A content that does not parse is recorded as the error object holding
      the cleaned content, rather than skipped. */
  lemma ParseFailureRecorded(chunk: ChunkRecord, processed: set<string>, known: string, env: Env)
    requires Selected(chunk, processed)
    requires Generate(chunk, known, env).Ok?
    requires env.parse(CleanFences(Generate(chunk, known, env).content)).None?
    ensures Outcome(chunk, processed, known, env)
      == Some(ExtractionRecord(chunk.chunkId, chunk.chapterOrder, chunk.sceneIndex,
                               ErrorObj(CleanFences(Generate(chunk, known, env).content))))
  {
  }

  /** The mock never fails. */
  lemma MockNeverFails(chunk: ChunkRecord, known: string, env: Env)
    requires env.isMock
    ensures Generate(chunk, known, env) == Ok(MockGenerateContent(chunk.text))
  {
  }

  /** The indices of the chunks that produced the new records, in order. */
  function Sources(chunks: seq<ChunkRecord>, processed: set<string>, known: string, env: Env): seq<nat>
    decreases |chunks|
  {
    if chunks == [] then []
    else
      var n := |chunks| - 1;
      Sources(chunks[..n], processed, known, env) + (if Outcome(chunks[n], processed, known, env).Some? then [n] else [])
  }

  /** The k-th new record is the outcome of chunk `Sources[k]`. */
  lemma {:induction false} SourcesSpec(chunks: seq<ChunkRecord>, processed: set<string>, known: string, env: Env)
    ensures |Sources(chunks, processed, known, env)| == |NewRecords(chunks, processed, known, env)|
    ensures forall k :: 0 <= k < |Sources(chunks, processed, known, env)| ==>
      && Sources(chunks, processed, known, env)[k] < |chunks|
      && Outcome(chunks[Sources(chunks, processed, known, env)[k]], processed, known, env)
         == Some(NewRecords(chunks, processed, known, env)[k])
    decreases |chunks|
  {
    if chunks != [] {
      var n := |chunks| - 1;
      var prefix := chunks[..n];
      SourcesSpec(prefix, processed, known, env);
      var src, recs := Sources(prefix, processed, known, env), NewRecords(prefix, processed, known, env);
      var o := Outcome(chunks[n], processed, known, env);
      assert Sources(chunks, processed, known, env) == src + (if o.Some? then [n] else []);
      assert NewRecords(chunks, processed, known, env) == recs + OptionToSeq(o);
      forall k | 0 <= k < |src|
        ensures chunks[src[k]] == prefix[src[k]]
      {
      }
    }
  }

  /** The sources increase strictly and lie below the number of chunks: the
      new records are in chunk order. */
  lemma {:induction false} SourcesIncrease(chunks: seq<ChunkRecord>, processed: set<string>, known: string, env: Env)
    ensures forall k :: 0 <= k < |Sources(chunks, processed, known, env)| ==>
      Sources(chunks, processed, known, env)[k] < |chunks|
    ensures forall k, l :: 0 <= k < l < |Sources(chunks, processed, known, env)| ==>
      Sources(chunks, processed, known, env)[k] < Sources(chunks, processed, known, env)[l]
    decreases |chunks|
  {
    if chunks != [] {
      SourcesIncrease(chunks[..|chunks| - 1], processed, known, env);
    }
  }

  /** Every chunk with an outcome is a source: no record is dropped. */
  lemma {:induction false} SourcesComplete(chunks: seq<ChunkRecord>, processed: set<string>, known: string, env: Env)
    ensures forall j :: 0 <= j < |chunks| && Outcome(chunks[j], processed, known, env).Some? ==>
      j in Sources(chunks, processed, known, env)
    decreases |chunks|
  {
    if chunks != [] {
      var n := |chunks| - 1;
      var prefix := chunks[..n];
      SourcesComplete(prefix, processed, known, env);
      forall j | 0 <= j < n
        ensures chunks[j] == prefix[j]
      {
      }
    }
  }

  /** A chunk outside the chapter filter, or whose id was among the resumed
      records, is the source of no new record. */
  lemma SkippedChunk(chunks: seq<ChunkRecord>, j: nat, processed: set<string>, known: string, env: Env)
    requires j < |chunks|
    requires !Eligible(chunks[j]) || chunks[j].chunkId in processed
    ensures j !in Sources(chunks, processed, known, env)
  {
    SourcesSpec(chunks, processed, known, env);
    var src := Sources(chunks, processed, known, env);
    forall k | 0 <= k < |src|
      ensures src[k] != j
    {
      OutcomeSpec(chunks[src[k]], processed, known, env);
    }
  }

  /** The records appended for the chunks are the outcomes of the chunks, so
      a chunk is recorded by id exactly when some chunk with that id has an outcome. */
  lemma {:induction false} NewIds(chunks: seq<ChunkRecord>, processed: set<string>, known: string, env: Env)
    ensures forall id :: id in Ids(NewRecords(chunks, processed, known, env)) <==>
      exists j :: 0 <= j < |chunks| && chunks[j].chunkId == id && Outcome(chunks[j], processed, known, env).Some?
    decreases |chunks|
  {
    if chunks != [] {
      var n := |chunks| - 1;
      var prefix := chunks[..n];
      NewIds(prefix, processed, known, env);
      IdsAppend(NewRecords(prefix, processed, known, env), OptionToSeq(Outcome(chunks[n], processed, known, env)));
      assert forall j :: 0 <= j < n ==> prefix[j] == chunks[j];
    }
  }

  lemma IdsAppend(a: seq<ExtractionRecord>, b: seq<ExtractionRecord>)
    ensures Ids(a + b) == Ids(a) + Ids(b)
  {
    assert forall r :: r in a + b <==> r in a || r in b;
  }

  /** A chunk whose call failed is not recorded, so when chunk ids are
      unique, a second run seeded with the first run's records selects it again. */
  lemma FailedChunkRetried(chunks: seq<ChunkRecord>, j: nat, resume: seq<ExtractionRecord>, known: string, env: Env)
    requires j < |chunks|
    requires forall k, l :: 0 <= k < l < |chunks| ==> chunks[k].chunkId != chunks[l].chunkId
    requires Selected(chunks[j], Ids(resume))
    requires Generate(chunks[j], known, env).Fail?
    ensures Selected(chunks[j], Ids(resume + NewRecords(chunks, Ids(resume), known, env)))
  {
    NewIds(chunks, Ids(resume), known, env);
    IdsAppend(resume, NewRecords(chunks, Ids(resume), known, env));
  }

  /** A chunk whose content did not parse is recorded (with the error
      object), so a second run does not select it again. */
  lemma ParseFailureNotRetried(chunks: seq<ChunkRecord>, j: nat, resume: seq<ExtractionRecord>, known: string, env: Env)
    requires j < |chunks|
    requires Selected(chunks[j], Ids(resume))
    requires Generate(chunks[j], known, env).Ok?
    requires env.parse(CleanFences(Generate(chunks[j], known, env).content)).None?
    ensures !Selected(chunks[j], Ids(resume + NewRecords(chunks, Ids(resume), known, env)))
  {
    NewIds(chunks, Ids(resume), known, env);
    IdsAppend(resume, NewRecords(chunks, Ids(resume), known, env));
    assert Outcome(chunks[j], Ids(resume), known, env).Some?;
  }

  /** Nothing selected: nothing appended and no call made. */
  lemma {:induction false} NoneSelected(chunks: seq<ChunkRecord>, processed: set<string>, known: string, env: Env)
    requires forall j :: 0 <= j < |chunks| ==> !Selected(chunks[j], processed)
    ensures NewRecords(chunks, processed, known, env) == []
    ensures Calls(chunks, processed, known, env) == []
    decreases |chunks|
  {
    if chunks != [] {
      NoneSelected(chunks[..|chunks| - 1], processed, known, env);
    }
  }

  /** Idempotent resume: after a run in which no call failed, a second run
      seeded with its records, whatever its model and reference list,
      appends nothing and calls nothing. */
  lemma ResumeIdempotent(chunks: seq<ChunkRecord>, resume: seq<ExtractionRecord>, known: string, env: Env,
                         known2: string, env2: Env)
    requires forall j :: 0 <= j < |chunks| && Selected(chunks[j], Ids(resume)) ==> Generate(chunks[j], known, env).Ok?
    ensures var resume2 := resume + NewRecords(chunks, Ids(resume), known, env);
      && NewRecords(chunks, Ids(resume2), known2, env2) == []
      && Calls(chunks, Ids(resume2), known2, env2) == []
  {
    var added := NewRecords(chunks, Ids(resume), known, env);
    NewIds(chunks, Ids(resume), known, env);
    IdsAppend(resume, added);
    forall j | 0 <= j < |chunks|
      ensures !Selected(chunks[j], Ids(resume + added))
    {
      if Selected(chunks[j], Ids(resume)) {
        assert Outcome(chunks[j], Ids(resume), known, env).Some?;
      }
    }
    NoneSelected(chunks, Ids(resume + added), known2, env2);
  }

  /** The number of checkpoints: the multiples of 5 passed by the total when it
      grows from `|resume|` to `|resume| + |added|`. */
  lemma {:induction false} SnapshotCount<T>(resume: seq<T>, added: seq<T>)
    ensures |Snapshots(resume, added)| == (|resume| + |added|) / 5 - |resume| / 5
    decreases |added|
  {
    if added != [] {
      SnapshotCount(resume, added[..|added| - 1]);
    }
  }

  /** Every checkpoint is a prefix of the final records, longer than the
      resumed ones, with a multiple of 5 records; they grow strictly. */
  lemma {:induction false} SnapshotsArePrefixes<T>(resume: seq<T>, added: seq<T>)
    ensures forall k :: 0 <= k < |Snapshots(resume, added)| ==>
      var snap := Snapshots(resume, added)[k];
      && IsCheckpoint(|snap|)
      && |resume| < |snap| <= |resume| + |added|
      && snap == (resume + added)[..|snap|]
    ensures forall k, l :: 0 <= k < l < |Snapshots(resume, added)| ==>
      |Snapshots(resume, added)[k]| < |Snapshots(resume, added)[l]|
    decreases |added|
  {
    if added != [] {
      var prefix := added[..|added| - 1];
      SnapshotsArePrefixes(resume, prefix);
      assert (resume + added)[..|resume| + |prefix|] == resume + prefix;
      forall k | 0 <= k < |Snapshots(resume, prefix)|
        ensures Snapshots(resume, prefix)[k] == (resume + added)[..|Snapshots(resume, prefix)[k]|]
      {
        var snap := Snapshots(resume, prefix)[k];
        assert (resume + prefix)[..|snap|] == (resume + added)[..|snap|];
      }
    }
  }

  /** From no records, 12 new records give 3 saves: after 5 and 10, and the final one. */
  lemma TwelveFromEmpty<T>(added: seq<T>)
    requires |added| == 12
    ensures |Snapshots([], added) + [[] + added]| == 3
    ensures |Snapshots([], added)[0]| == 5 && |Snapshots([], added)[1]| == 10
  {
    SnapshotCount([], added);
    SnapshotsArePrefixes([], added);
    var snaps := Snapshots([], added);
    var s0, s1 := |snaps[0]|, |snaps[1]|;
    assert IsCheckpoint(s0) && IsCheckpoint(s1) && 0 < s0 < s1 <= 12;
  }

  /** Resuming from 3 records, 2 new ones bring the total to 5: one checkpoint
      of all 5, then the final save. */
  lemma ResumedCheckpoint<T>(resume: seq<T>, added: seq<T>)
    requires |resume| == 3 && |added| == 2
    ensures Snapshots(resume, added) == [resume + added]
  {
    SnapshotCount(resume, added);
    SnapshotsArePrefixes(resume, added);
    assert (resume + added)[..5] == resume + added;
  }
}
