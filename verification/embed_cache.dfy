/** The two _embed functions of backend/core/memory.py and backend/tools/rag_recall.py, reading and
    writing one Redis cache, as interleaved calls cut at every await. */
module EmbedCache {
  import opened Options
  import opened Sequences

  type Vector = seq<real>

  type Embedder = string -> Vector

  const RAG_INPUT_LIMIT := 8000

  datatype Client = Memory | RagRecall

  datatype Progress = Reading | Embedding | Writing(pending: Vector) | Returned(vector: Vector, hit: bool) | Raised

  datatype Call = Call(client: Client, text: string, progress: Progress)

  datatype World = World(cache: map<string, Vector>, calls: map<nat, Call>)

  /** One atomic step: a call begins, one of its awaits completes or fails, or an entry expires.
      Fallback is a read that finds nothing usable: a miss, an undecodable entry, or, in the memory
      client, any Redis error. A write may fail before it takes effect, or after (the reply is lost). */
  datatype Action =
    | Begin(id: nat, client: Client, text: string)
    | Hit(id: nat)
    | Fallback(id: nat)
    | ReadError(id: nat)
    | Embed(id: nat)
    | EmbedError(id: nat)
    | Write(id: nat)
    | WriteError(id: nat)
    | WriteLostReply(id: nat)
    | Expire(key: string)

  ghost predicate Injective(key: string -> string) {
    forall s, t :: key(s) == key(t) ==> s == t
  }

  /** The text each client sends to the embedding model. */
  function ModelInput(c: Call): string {
    if c.client.RagRecall? then SliceTo(c.text, RAG_INPUT_LIMIT) else c.text
  }

  predicate At(w: World, id: nat, p: Progress) {
    id in w.calls && w.calls[id].progress == p
  }

  predicate Enabled(key: string -> string, w: World, a: Action) {
    match a
    case Begin(id, _, _) => id !in w.calls
    case Hit(id) => At(w, id, Reading) && key(w.calls[id].text) in w.cache
    case Fallback(id) => At(w, id, Reading)
    case ReadError(id) => At(w, id, Reading) && w.calls[id].client.RagRecall?
    case Embed(id) => At(w, id, Embedding)
    case EmbedError(id) => At(w, id, Embedding)
    case Write(id) => id in w.calls && w.calls[id].progress.Writing?
    case WriteError(id) => id in w.calls && w.calls[id].progress.Writing?
    case WriteLostReply(id) => id in w.calls && w.calls[id].progress.Writing?
    case Expire(_) => true
  }

  function Moved(w: World, id: nat, p: Progress): World
    requires id in w.calls
  {
    w.(calls := w.calls[id := w.calls[id].(progress := p)])
  }

  /** The pending vector of a call put into the cache. */
  function Stored(key: string -> string, w: World, id: nat): World
    requires id in w.calls && w.calls[id].progress.Writing?
  {
    w.(cache := w.cache[key(w.calls[id].text) := w.calls[id].progress.pending])
  }

  /** The memory client absorbs the exception of a write; the recall tool lets it escape. */
  function AfterFailedWrite(c: Call): Progress
    requires c.progress.Writing?
  {
    if c.client.Memory? then Returned(c.progress.pending, false) else Raised
  }

  function Next(key: string -> string, emb: Embedder, w: World, a: Action): World
    requires Enabled(key, w, a)
  {
    match a
    case Begin(id, client, text) => w.(calls := w.calls[id := Call(client, text, Reading)])
    case Hit(id) => Moved(w, id, Returned(w.cache[key(w.calls[id].text)], true))
    case Fallback(id) => Moved(w, id, Embedding)
    case ReadError(id) => Moved(w, id, Raised)
    case Embed(id) => Moved(w, id, Writing(emb(ModelInput(w.calls[id]))))
    case EmbedError(id) => Moved(w, id, Raised)
    case Write(id) => Moved(Stored(key, w, id), id, Returned(w.calls[id].progress.pending, false))
    case WriteError(id) => Moved(w, id, AfterFailedWrite(w.calls[id]))
    case WriteLostReply(id) => Moved(Stored(key, w, id), id, AfterFailedWrite(w.calls[id]))
    case Expire(k) => w.(cache := w.cache - {k})
  }

  const EMPTY := World(map[], map[])

  ghost predicate IsRun(key: string -> string, emb: Embedder, acts: seq<Action>)
    decreases |acts|, 0
  {
    acts == [] ||
    (IsRun(key, emb, acts[..|acts| - 1]) && Enabled(key, After(key, emb, acts[..|acts| - 1]), acts[|acts| - 1]))
  }

  ghost function After(key: string -> string, emb: Embedder, acts: seq<Action>): World
    requires IsRun(key, emb, acts)
    decreases |acts|, 1
  {
    if acts == [] then EMPTY else Next(key, emb, After(key, emb, acts[..|acts| - 1]), acts[|acts| - 1])
  }

  /** v is the embedding of t or of the part of t that the recall tool sends. */
  predicate Plausible(emb: Embedder, t: string, v: Vector) {
    v == emb(t) || v == emb(SliceTo(t, RAG_INPUT_LIMIT))
  }

  ghost predicate Inv(key: string -> string, emb: Embedder, w: World) {
    && (forall t :: key(t) in w.cache ==> Plausible(emb, t, w.cache[key(t)]))
    && (forall id :: id in w.calls ==> CallInv(emb, w.calls[id]))
  }

  predicate CallInv(emb: Embedder, c: Call) {
    match c.progress
    case Writing(v) => Plausible(emb, c.text, v)
    case Returned(v, _) => Plausible(emb, c.text, v)
    case _ => true
  }

  lemma StepKeepsInv(key: string -> string, emb: Embedder, w: World, a: Action)
    requires Injective(key) && Inv(key, emb, w) && Enabled(key, w, a)
    ensures Inv(key, emb, Next(key, emb, w, a))
  {
  }

  lemma {:induction false} RunKeepsInv(key: string -> string, emb: Embedder, acts: seq<Action>)
    requires Injective(key) && IsRun(key, emb, acts)
    ensures Inv(key, emb, After(key, emb, acts))
  {
    if acts == [] {
    } else {
      var n := |acts| - 1;
      RunKeepsInv(key, emb, acts[..n]);
      StepKeepsInv(key, emb, After(key, emb, acts[..n]), acts[n]);
    }
  }

  ghost predicate HitsExact(key: string -> string, emb: Embedder, t: string, acts: seq<Action>)
    requires IsRun(key, emb, acts)
  {
    var w := After(key, emb, acts);
    forall id :: id in w.calls && w.calls[id].text == t && w.calls[id].progress.Returned? && w.calls[id].progress.hit
                 ==> w.calls[id].progress.vector == emb(t)
  }

  /** Under every interleaving a call returns the embedding of its text or of the first 8000 characters. */
  lemma ReturnsPlausible(key: string -> string, emb: Embedder, acts: seq<Action>, id: nat)
    requires Injective(key) && IsRun(key, emb, acts)
    requires id in After(key, emb, acts).calls && After(key, emb, acts).calls[id].progress.Returned?
    ensures var c := After(key, emb, acts).calls[id];
            c.progress.vector == emb(c.text) || c.progress.vector == emb(SliceTo(c.text, RAG_INPUT_LIMIT))
  {
    RunKeepsInv(key, emb, acts);
  }

  /** A text is safe to share between the two clients, for every embedder and interleaving, exactly
      when the recall tool does not cut it. */
  lemma HitsExactIff(key: string -> string, t: string)
    requires Injective(key)
    ensures (forall emb: Embedder, acts :: IsRun(key, emb, acts) ==> HitsExact(key, emb, t, acts))
            <==> |t| <= RAG_INPUT_LIMIT
  {
    if |t| <= RAG_INPUT_LIMIT {
      forall emb: Embedder, acts | IsRun(key, emb, acts)
        ensures HitsExact(key, emb, t, acts)
      {
        RunKeepsInv(key, emb, acts);
        assert SliceTo(t, RAG_INPUT_LIMIT) == t;
      }
    } else {
      var emb, acts := CutTextLeaks(key, t);
    }
  }

  /** The recall tool embeds the first part of a long text; the memory client then hits that entry. */
  lemma CutTextLeaks(key: string -> string, t: string) returns (emb: Embedder, acts: seq<Action>)
    requires |t| > RAG_INPUT_LIMIT
    ensures IsRun(key, emb, acts) && !HitsExact(key, emb, t, acts)
  {
    emb := (s: string) => if |s| > RAG_INPUT_LIMIT then [1.0] else [0.0];
    acts := [];
    acts := Extend(key, emb, acts, Begin(0, RagRecall, t));
    acts := Extend(key, emb, acts, Fallback(0));
    acts := Extend(key, emb, acts, Embed(0));
    acts := Extend(key, emb, acts, Write(0));
    acts := Extend(key, emb, acts, Begin(1, Memory, t));
    acts := Extend(key, emb, acts, Hit(1));
    assert After(key, emb, acts).calls[1] == Call(Memory, t, Returned([0.0], true));
  }

  lemma Extend(key: string -> string, emb: Embedder, acts: seq<Action>, a: Action) returns (longer: seq<Action>)
    requires IsRun(key, emb, acts) && Enabled(key, After(key, emb, acts), a)
    ensures IsRun(key, emb, longer) && After(key, emb, longer) == Next(key, emb, After(key, emb, acts), a)
  {
    longer := acts + [a];
    assert longer[..|acts|] == acts;
  }

  /** The call that an action belongs to. */
  function CallOf(a: Action): Option<nat> {
    match a
    case Begin(id, _, _) => Some(id)
    case Hit(id) => Some(id)
    case Fallback(id) => Some(id)
    case ReadError(id) => Some(id)
    case Embed(id) => Some(id)
    case EmbedError(id) => Some(id)
    case Write(id) => Some(id)
    case WriteError(id) => Some(id)
    case WriteLostReply(id) => Some(id)
    case Expire(_) => None
  }

  /** A call raises exactly when the embedding model fails, or when it is the recall tool's and Redis
      fails: the memory client goes on without its cache. */
  lemma RaisesIff(key: string -> string, emb: Embedder, w: World, a: Action, id: nat)
    requires Enabled(key, w, a) && CallOf(a) == Some(id)
    ensures id in Next(key, emb, w, a).calls
    ensures Next(key, emb, w, a).calls[id].progress.Raised? <==>
              a.EmbedError? || (Next(key, emb, w, a).calls[id].client.RagRecall?
                                && (a.ReadError? || a.WriteError? || a.WriteLostReply?))
  {
  }

  /** A call that fails to write still returns the vector it has computed, if it returns. */
  lemma ReturnsItsVector(key: string -> string, emb: Embedder, w: World, a: Action, id: nat)
    requires Enabled(key, w, a) && CallOf(a) == Some(id) && (a.Write? || a.WriteError? || a.WriteLostReply?)
    requires Next(key, emb, w, a).calls[id].progress.Returned?
    ensures Next(key, emb, w, a).calls[id].progress == Returned(w.calls[id].progress.pending, false)
  {
  }

  /** What the model is asked for: the whole text by the memory client, at most its first 8000
      characters by the recall tool. */
  lemma AsksFor(key: string -> string, emb: Embedder, w: World, id: nat)
    requires Enabled(key, w, Embed(id))
    ensures var text := w.calls[id].text;
            Next(key, emb, w, Embed(id)).calls[id].progress
            == Writing(emb(if w.calls[id].client.Memory? || |text| <= 8000 then text else text[..8000]))
  {
    var text := w.calls[id].text;
    assert |text| == 8000 ==> text[..8000] == text;
  }

  /** The cache changes by exactly two things: a write, answered or not, puts the vector of its call
      under the key of its text, and an expiry takes an entry away. */
  lemma CacheChanges(key: string -> string, emb: Embedder, w: World, a: Action, k: string)
    requires Enabled(key, w, a)
    ensures var next, writes := Next(key, emb, w, a).cache, a.Write? || a.WriteLostReply?;
            if writes && k == key(w.calls[CallOf(a).value].text) then
              k in next && next[k] == w.calls[CallOf(a).value].progress.pending
            else if a == Expire(k) then
              k !in next
            else
              (k in next <==> k in w.cache) && (k in w.cache ==> next[k] == w.cache[k])
  {
  }
}
