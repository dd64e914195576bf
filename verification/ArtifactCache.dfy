/**
 The artifact cache that the analysis tools share: a run whose input fingerprint equals the
 recorded one returns the stored artifact instead of building it. The hash, the canonical JSON
 text and the tools' builds are left open; what is assumed of them is named where it is used.
 */
module ArtifactCache {
  import opened Wrappers
  import opened DecimalText

  /** A JSON document; the order of a mapping's keys does not matter. */
  datatype Payload =
    | Scalar(text: string)
    | Items(items: seq<Payload>)
    | Fields(fields: map<string, Payload>)

  const VOLATILE_KEYS: set<string> := {
    "generatedAt", "generated_at", "timestamp", "createdAt", "updatedAt", "runStartedAt", "runFinishedAt",
    "durationMs", "durationSeconds", "stdoutLog", "stderrLog", "command", "commands", "meta"
  }

  /** `normalize_for_regression`: volatile keys dropped at every depth. */
  function Normalize(p: Payload): Payload
    decreases p
  {
    match p
    case Scalar(_) => p
    case Items(items) => Items(seq(|items|, i requires 0 <= i < |items| => Normalize(items[i])))
    case Fields(fields) => Fields(map k | k in fields && k !in VOLATILE_KEYS :: Normalize(fields[k]))
  }

  lemma {:induction false} NormalizeIdempotent(p: Payload)
    ensures Normalize(Normalize(p)) == Normalize(p)
    decreases p
  {
    match p
    case Scalar(_) =>
    case Items(items) =>
      forall i | 0 <= i < |items|
        ensures Normalize(Normalize(items[i])) == Normalize(items[i])
      {
        NormalizeIdempotent(items[i]);
      }
    case Fields(fields) =>
      forall k | k in fields
        ensures Normalize(Normalize(fields[k])) == Normalize(fields[k])
      {
        NormalizeIdempotent(fields[k]);
      }
  }

  /** No volatile key survives, at any depth. */
  predicate Stable(p: Payload)
    decreases p
  {
    match p
    case Scalar(_) => true
    case Items(items) => forall i :: 0 <= i < |items| ==> Stable(items[i])
    case Fields(fields) => forall k :: k in fields ==> k !in VOLATILE_KEYS && Stable(fields[k])
  }

  /** Normalisation removes all that is volatile, and changes nothing if and only if there was nothing. */
  lemma {:induction false} NormalizeStable(p: Payload)
    ensures Stable(Normalize(p)) && (Normalize(p) == p <==> Stable(p))
    decreases p
  {
    match p
    case Scalar(_) =>
    case Items(items) =>
      forall i | 0 <= i < |items|
        ensures Stable(Normalize(items[i])) && (Normalize(items[i]) == items[i] <==> Stable(items[i]))
      {
        NormalizeStable(items[i]);
      }
      assert forall i :: 0 <= i < |items| ==> Normalize(p).items[i] == Normalize(items[i]);
    case Fields(fields) =>
      forall k | k in fields
        ensures Stable(Normalize(fields[k])) && (Normalize(fields[k]) == fields[k] <==> Stable(fields[k]))
      {
        NormalizeStable(fields[k]);
      }
      if Normalize(p) == p {
        assert forall k :: k in fields ==> k in Normalize(p).fields;
      }
  }

  /** A way into a document. */
  datatype Step = Key(key: string) | Index(index: nat)

  /** What a path leads to. */
  function Reach(p: Payload, path: seq<Step>): Option<Payload>
    decreases |path|
  {
    if path == [] then Some(p)
    else match path[0]
      case Key(k) => if p.Fields? && k in p.fields then Reach(p.fields[k], path[1..]) else None
      case Index(i) => if p.Items? && i < |p.items| then Reach(p.items[i], path[1..]) else None
  }

  predicate PassesVolatile(path: seq<Step>) {
    exists i :: 0 <= i < |path| && path[i].Key? && path[i].key in VOLATILE_KEYS
  }

  predicate SameKind(p: Payload, q: Payload) {
    match p
    case Scalar(text) => q == Scalar(text)
    case Items(items) => q.Items? && |q.items| == |items|
    case Fields(_) => q.Fields?
  }

  /** Nothing else goes: a path leads somewhere afterwards if and only if it did before and passes no volatile key, and to the same. */
  lemma {:induction false} NormalizeKeeps(p: Payload, path: seq<Step>)
    ensures Reach(Normalize(p), path).Some? <==> Reach(p, path).Some? && !PassesVolatile(path)
    ensures Reach(Normalize(p), path).Some? ==> SameKind(Reach(p, path).value, Reach(Normalize(p), path).value)
    decreases |path|
  {
    if path != [] {
      var rest := path[1..];
      assert PassesVolatile(path) <==> (path[0].Key? && path[0].key in VOLATILE_KEYS) || PassesVolatile(rest) by {
        assert forall i :: 0 < i < |path| ==> path[i] == rest[i - 1];
      }
      hide PassesVolatile;
      match path[0]
      case Key(k) =>
        if p.Fields? && k in p.fields {
          NormalizeKeeps(p.fields[k], rest);
        }
      case Index(i) =>
        if p.Items? && i < |p.items| {
          NormalizeKeeps(p.items[i], rest);
        }
    }
  }

  /* ---------- fingerprints ---------- */

  /** A file's text and the time it was last written. */
  datatype File = File(text: string, modified: int)

  type Disk = map<string, File>

  /** The hash of a text, the canonical JSON text of a document, and its inverse. */
  datatype Hashing = Hashing(sha: string -> string, stable: Payload -> string, load: string -> Payload)

  /** No two texts collide, and canonical texts read back. */
  ghost predicate CollisionFree(h: Hashing) {
    && (forall x, y :: h.sha(x) == h.sha(y) ==> x == y)
    && (forall p :: h.load(h.stable(p)) == p)
  }

  lemma StableInjective(h: Hashing, p: Payload, q: Payload)
    requires CollisionFree(h) && h.stable(p) == h.stable(q)
    ensures p == q
  {
    assert h.load(h.stable(p)) == p && h.load(h.stable(q)) == q;
  }

  function Texts(m: map<string, string>): Payload {
    Fields(map k | k in m :: Scalar(m[k]))
  }

  lemma TextsInjective(m: map<string, string>, n: map<string, string>)
    requires Texts(m) == Texts(n)
    ensures m == n
  {
    assert Texts(m).fields.Keys == m.Keys && Texts(n).fields.Keys == n.Keys;
    forall k | k in m
      ensures k in n && m[k] == n[k]
    {
      assert k in Texts(m).fields && Texts(m).fields[k] == Scalar(m[k]);
      assert k in Texts(n).fields && Texts(n).fields[k] == Scalar(n[k]);
    }
  }

  /** `file_fingerprint`: the hash of every listed file that exists. */
  function FileFingerprint(h: Hashing, disk: Disk, paths: set<string>): map<string, string> {
    map path | path in paths && path in disk :: h.sha(disk[path].text)
  }

  /** An extra input, as `artifact_input_fingerprint` receives it. */
  datatype Extra = Number(n: int) | Word(word: string) | Document(document: Payload)

  function ExtraText(h: Hashing, e: Extra): string {
    match e
    case Number(n) => Show(n)
    case Word(word) => word
    case Document(document) =>
      if document.Scalar? then document.text else h.stable(Normalize(document))
  }

  /** The parts of a fingerprint; an extra named like a fixed part would replace it. */
  function Parts(h: Hashing, tool: string, disk: Disk, paths: set<string>, extras: map<string, Extra>): map<string, string> {
    map["tool" := tool, "paths" := h.stable(Texts(FileFingerprint(h, disk, paths)))]
    + map k | k in extras :: ExtraText(h, extras[k])
  }

  function Fingerprint(h: Hashing, tool: string, disk: Disk, paths: set<string>, extras: map<string, Extra>): string {
    h.sha(h.stable(Texts(Parts(h, tool, disk, paths, extras))))
  }

  /** What the fingerprint covers: the texts of the listed files that exist, and the extras as text. */
  function Covered(disk: Disk, paths: set<string>): map<string, string> {
    map path | path in paths && path in disk :: disk[path].text
  }

  function ExtraTexts(h: Hashing, extras: map<string, Extra>): map<string, string> {
    map k | k in extras :: ExtraText(h, extras[k])
  }

  lemma FilesDetermined(h: Hashing, d: Disk, ps: set<string>, e: Disk, qs: set<string>)
    requires CollisionFree(h) && FileFingerprint(h, d, ps) == FileFingerprint(h, e, qs)
    ensures Covered(d, ps) == Covered(e, qs)
  {
    var f, g := FileFingerprint(h, d, ps), FileFingerprint(h, e, qs);
    assert f.Keys == Covered(d, ps).Keys && g.Keys == Covered(e, qs).Keys;
    forall path | path in Covered(d, ps)
      ensures path in Covered(e, qs) && Covered(d, ps)[path] == Covered(e, qs)[path]
    {
      assert path in f && path in g && h.sha(d[path].text) == h.sha(e[path].text);
    }
  }

  /** Equal fingerprints of one tool mean equal covered files and equal extra texts. */
  lemma FingerprintDetermines(h: Hashing, tool: string, d: Disk, ps: set<string>, xs: map<string, Extra>,
                              e: Disk, qs: set<string>, ys: map<string, Extra>)
    requires CollisionFree(h) && xs.Keys == ys.Keys && "tool" !in xs && "paths" !in xs
    requires Fingerprint(h, tool, d, ps, xs) == Fingerprint(h, tool, e, qs, ys)
    ensures Covered(d, ps) == Covered(e, qs) && ExtraTexts(h, xs) == ExtraTexts(h, ys)
  {
    var p, q := Parts(h, tool, d, ps, xs), Parts(h, tool, e, qs, ys);
    assert h.stable(Texts(p)) == h.stable(Texts(q));
    StableInjective(h, Texts(p), Texts(q));
    TextsInjective(p, q);
    assert p["paths"] == q["paths"];
    StableInjective(h, Texts(FileFingerprint(h, d, ps)), Texts(FileFingerprint(h, e, qs)));
    TextsInjective(FileFingerprint(h, d, ps), FileFingerprint(h, e, qs));
    FilesDetermined(h, d, ps, e, qs);
    forall k | k in xs
      ensures ExtraText(h, xs[k]) == ExtraText(h, ys[k])
    {
      assert p[k] == ExtraText(h, xs[k]) && q[k] == ExtraText(h, ys[k]);
    }
  }

  /** Runs of differently named tools never have the same fingerprint. */
  lemma FingerprintNamesTool(h: Hashing, tool: string, d: Disk, ps: set<string>, xs: map<string, Extra>,
                             other: string, e: Disk, qs: set<string>, ys: map<string, Extra>)
    requires CollisionFree(h) && "tool" !in xs && "tool" !in ys
    requires Fingerprint(h, tool, d, ps, xs) == Fingerprint(h, other, e, qs, ys)
    ensures tool == other
  {
    hide FileFingerprint;
    var p, q := Parts(h, tool, d, ps, xs), Parts(h, other, e, qs, ys);
    assert h.stable(Texts(p)) == h.stable(Texts(q));
    StableInjective(h, Texts(p), Texts(q));
    TextsInjective(p, q);
    assert "tool"[0] == 't' && "paths"[0] == 'p';
    assert p["tool"] == tool && q["tool"] == other;
  }

  /* ---------- tools and runs ---------- */

  /** A run's arguments that reach the build. */
  datatype Arguments = Arguments(clusterId: string, attemptLimit: int)

  /**
   A tool: its key in the manifest, its name, the inputs it fingerprints, its build (which may
   look at anything, the clock included), and the two files it writes.
   */
  datatype Tool = Tool(
    key: string, name: string,
    inputs: (Disk, Arguments) -> set<string>,
    extras: Arguments -> map<string, Extra>,
    build: (Disk, Arguments, int) -> Payload,
    render: Payload -> string,
    json: string, markdown: string)

  datatype Entry = Entry(inputFingerprint: string, outputs: seq<string>)

  type Manifest = map<string, Entry>

  datatype Shared = Shared(disk: Disk, manifest: Manifest)

  function ToolFingerprint(h: Hashing, t: Tool, disk: Disk, a: Arguments): string {
    Fingerprint(h, t.name, disk, t.inputs(disk, a), t.extras(a))
  }

  /** `cache_hit`. */
  predicate CacheHit(h: Hashing, t: Tool, s: Shared, a: Arguments, force: bool) {
    && !force
    && t.key in s.manifest
    && s.manifest[t.key].inputFingerprint == ToolFingerprint(h, t, s.disk, a)
    && t.json in s.disk && t.markdown in s.disk
  }

  /** The artifact a run hands out. */
  function Returned(h: Hashing, t: Tool, s: Shared, a: Arguments, clock: int, force: bool): Payload {
    if CacheHit(h, t, s, a, force) then h.load(s.disk[t.json].text) else t.build(s.disk, a, clock)
  }

  /** `write_artifacts`. */
  function Written(h: Hashing, t: Tool, disk: Disk, artifact: Payload, clock: int): Disk {
    disk[t.json := File(h.stable(artifact), clock)][t.markdown := File(t.render(artifact), clock)]
  }

  /** What a run leaves behind: on a miss the two outputs and the manifest entry. */
  function AfterRun(h: Hashing, t: Tool, s: Shared, a: Arguments, clock: int, force: bool): Shared {
    if CacheHit(h, t, s, a, force) then s
    else
      var artifact := t.build(s.disk, a, clock);
      Shared(Written(h, t, s.disk, artifact, clock),
        s.manifest[t.key := Entry(ToolFingerprint(h, t, s.disk, a), [t.json, t.markdown])])
  }

  /* ---------- the manifest file ---------- */

  function EntryDocument(e: Entry): Payload {
    Fields(map[
      "inputFingerprint" := Scalar(e.inputFingerprint),
      "outputs" := Items(seq(|e.outputs|, i requires 0 <= i < |e.outputs| => Scalar(e.outputs[i])))])
  }

  function ManifestDocument(m: Manifest): Payload {
    Fields(map key | key in m :: EntryDocument(m[key]))
  }

  function TextOf(p: Payload): string {
    if p.Scalar? then p.text else ""
  }

  /** An entry without a fingerprint matches no input, like one that is missing. */
  function ReadEntry(p: Payload): Option<Entry> {
    if p.Fields? && "inputFingerprint" in p.fields && p.fields["inputFingerprint"].Scalar? then
      var outputs := if "outputs" in p.fields && p.fields["outputs"].Items? then p.fields["outputs"].items else [];
      Some(Entry(p.fields["inputFingerprint"].text, seq(|outputs|, i requires 0 <= i < |outputs| => TextOf(outputs[i]))))
    else None
  }

  /** `load_json(path, {}) or {}`: the entries of the manifest file, none when there is no file. */
  function LoadManifest(h: Hashing, file: Option<string>): Manifest {
    if file.None? then map[]
    else
      var document := h.load(file.value);
      if document.Fields? then map key | key in document.fields && ReadEntry(document.fields[key]).Some? :: ReadEntry(document.fields[key]).value
      else map[]
  }

  /** What is written to the manifest file is read back by the next run. */
  lemma ManifestRoundTrip(h: Hashing, m: Manifest)
    requires forall p :: h.load(h.stable(p)) == p
    ensures LoadManifest(h, Some(h.stable(ManifestDocument(m)))) == m
  {
    var document := ManifestDocument(m);
    assert h.load(h.stable(document)) == document;
    forall key | key in m
      ensures ReadEntry(document.fields[key]) == Some(m[key])
    {
      EntryRoundTrip(m[key]);
    }
  }

  lemma EntryRoundTrip(e: Entry)
    ensures ReadEntry(EntryDocument(e)) == Some(e)
  {
    assert "inputFingerprint"[0] != "outputs"[0];
    var p := EntryDocument(e);
    assert p.fields["inputFingerprint"] == Scalar(e.inputFingerprint);
    assert p.fields["outputs"].Items? && |p.fields["outputs"].items| == |e.outputs|;
    var items := p.fields["outputs"].items;
    assert forall i :: 0 <= i < |items| ==> items[i] == Scalar(e.outputs[i]);
    var read := ReadEntry(p).value.outputs;
    assert |read| == |e.outputs|;
    assert forall i :: 0 <= i < |read| ==> read[i] == TextOf(items[i]);
    assert read == e.outputs;
  }

  /** Nothing was added, removed or changed but at these keys. */
  predicate OthersKept<V(==)>(before: map<string, V>, after: map<string, V>, changed: set<string>) {
    && (forall k :: k in before && k !in changed ==> k in after && after[k] == before[k])
    && (forall k :: k in after && k !in changed ==> k in before)
  }

  /** `main`, as every tool runs it, in a directory with a manifest file. */
  class Workspace {
    var disk: Disk
    var manifest: Manifest
    var manifestFile: Option<string>

    constructor (d: Disk)
      ensures disk == d && manifestFile == None
    {
      disk := d;
      manifest := map[];
      manifestFile := None;
    }

    /** What the next run finds. */
    ghost function State(h: Hashing): Shared
      reads this
    {
      Shared(disk, LoadManifest(h, manifestFile))
    }

    method WriteArtifacts(h: Hashing, t: Tool, artifact: Payload, clock: int)
      modifies this`disk
      ensures disk == Written(h, t, old(disk), artifact, clock)
    {
      disk := disk[t.json := File(h.stable(artifact), clock)];
      disk := disk[t.markdown := File(t.render(artifact), clock)];
    }

    method RecordCacheEntry(key: string, fingerprint: string, outputs: seq<string>)
      modifies this`manifest
      ensures manifest == old(manifest)[key := Entry(fingerprint, outputs)]
    {
      manifest := manifest[key := Entry(fingerprint, outputs)];
    }

    method Run(h: Hashing, t: Tool, a: Arguments, clock: int, force: bool) returns (artifact: Payload)
      requires forall p :: h.load(h.stable(p)) == p
      modifies this
      ensures artifact == Returned(h, t, old(State(h)), a, clock, force)
      ensures State(h) == AfterRun(h, t, old(State(h)), a, clock, force)
      // whatever the run did, both outputs are there; a forced run, or one without them, builds
      ensures t.json in disk && t.markdown in disk
      ensures force || t.json !in old(disk) || t.markdown !in old(disk) ==> artifact == t.build(old(disk), a, clock)
      // a hit hands out what is stored and leaves everything alone
      ensures CacheHit(h, t, old(State(h)), a, force) ==>
                artifact == h.load(old(disk)[t.json].text) && disk == old(disk) && manifestFile == old(manifestFile)
      // a miss builds, writes the artifact and its report, and records what it was built from
      ensures !CacheHit(h, t, old(State(h)), a, force) ==>
                && artifact == t.build(old(disk), a, clock)
                && disk[t.markdown] == File(t.render(artifact), clock)
                && (t.json != t.markdown ==> h.load(disk[t.json].text) == artifact && disk[t.json] == File(h.stable(artifact), clock))
                && OthersKept(old(disk), disk, {t.json, t.markdown})
                && t.key in State(h).manifest && State(h).manifest[t.key].outputs == [t.json, t.markdown]
                && State(h).manifest[t.key].inputFingerprint == ToolFingerprint(h, t, old(disk), a)
                && OthersKept(old(State(h)).manifest, State(h).manifest, {t.key})
    {
      hide ToolFingerprint, LoadManifest, ManifestDocument;
      manifest := LoadManifest(h, manifestFile);
      var fingerprint := ToolFingerprint(h, t, disk, a);
      if CacheHit(h, t, Shared(disk, manifest), a, force) {
        return h.load(disk[t.json].text);
      }
      artifact := t.build(disk, a, clock);
      WriteArtifacts(h, t, artifact, clock);
      RecordCacheEntry(t.key, fingerprint, [t.json, t.markdown]);
      manifestFile := Some(h.stable(ManifestDocument(manifest)));
      ManifestRoundTrip(h, manifest);
    }
  }

  /* ---------- runs in any order, inputs changing between them ---------- */

  /** A run, or any number of files written and deleted between two runs. */
  datatype Event =
    | RunTool(tool: Tool, arguments: Arguments, clock: int, force: bool)
    | Edit(written: Disk, deleted: set<string>)

  function After(h: Hashing, s: Shared, e: Event): Shared {
    match e
    case RunTool(t, a, clock, force) => AfterRun(h, t, s, a, clock, force)
    case Edit(written, deleted) => s.(disk := s.disk + written - deleted)
  }

  /** Distinct tools have distinct keys and write distinct files, and no tool's two files coincide. */
  ghost predicate Separate(tools: set<Tool>) {
    && (forall t :: t in tools ==> t.json != t.markdown)
    && (forall t, u :: t in tools && u in tools && t != u ==>
          t.key != u.key && t.json != u.json && t.json != u.markdown && t.markdown != u.json)
  }

  /** Runs are of known tools, and nothing else writes a tool's artifact. */
  ghost predicate Permitted(tools: set<Tool>, e: Event) {
    match e
    case RunTool(t, _, _, _) => t in tools
    case Edit(written, _) => forall t :: t in tools ==> t.json !in written
  }

  /** The extras always have the same names, none of them reserved. */
  ghost predicate NamesFixed(t: Tool) {
    && (forall a, b :: t.extras(a).Keys == t.extras(b).Keys)
    && (forall a :: "tool" !in t.extras(a) && "paths" !in t.extras(a))
  }

  /**
   On the disks `within`, the build depends on nothing but what the fingerprint covers, volatile
   keys aside.
   */
  ghost predicate BuildCovered(h: Hashing, t: Tool, within: Disk -> bool) {
    forall d, a, c, e, b, k ::
      within(d) && within(e)
      && Covered(d, t.inputs(d, a)) == Covered(e, t.inputs(e, b)) && ExtraTexts(h, t.extras(a)) == ExtraTexts(h, t.extras(b))
      ==> Normalize(t.build(d, a, c)) == Normalize(t.build(e, b, k))
  }

  ghost predicate Covers(h: Hashing, t: Tool, within: Disk -> bool) {
    NamesFixed(t) && BuildCovered(h, t, within)
  }

  /** The stored artifact was built from inputs with the recorded fingerprint. */
  ghost predicate Faithful(h: Hashing, t: Tool, s: Shared, within: Disk -> bool) {
    t.key in s.manifest && t.json in s.disk ==>
      exists d, a, c ::
        && within(d)
        && s.manifest[t.key].inputFingerprint == ToolFingerprint(h, t, d, a)
        && s.disk[t.json].text == h.stable(t.build(d, a, c))
  }

  ghost predicate AllFaithful(h: Hashing, tools: set<Tool>, s: Shared, within: Disk -> bool) {
    forall t :: t in tools ==> Faithful(h, t, s, within)
  }

  lemma RunKeepsFaithful(h: Hashing, tools: set<Tool>, s: Shared, within: Disk -> bool, u: Tool, a: Arguments, clock: int, force: bool)
    requires Separate(tools) && AllFaithful(h, tools, s, within) && u in tools && within(s.disk)
    ensures AllFaithful(h, tools, AfterRun(h, u, s, a, clock, force), within)
  {
    hide ToolFingerprint;
    if !CacheHit(h, u, s, a, force) {
      var s' := AfterRun(h, u, s, a, clock, force);
      forall t | t in tools
        ensures Faithful(h, t, s', within)
      {
        if t == u {
          assert s'.manifest[t.key].inputFingerprint == ToolFingerprint(h, t, s.disk, a);
          assert s'.disk[t.json].text == h.stable(t.build(s.disk, a, clock));
        } else {
          assert Faithful(h, t, s, within);
        }
      }
    }
  }

  lemma EventKeepsFaithful(h: Hashing, tools: set<Tool>, s: Shared, within: Disk -> bool, e: Event)
    requires Separate(tools) && AllFaithful(h, tools, s, within) && Permitted(tools, e) && within(s.disk)
    ensures AllFaithful(h, tools, After(h, s, e), within)
  {
    hide ToolFingerprint;
    if e.RunTool? {
      RunKeepsFaithful(h, tools, s, within, e.tool, e.arguments, e.clock, e.force);
    } else {
      forall t | t in tools
        ensures Faithful(h, t, After(h, s, e), within)
      {
        assert Faithful(h, t, s, within);
      }
    }
  }

  /** A hit returns what a fresh build would, up to volatile keys. */
  lemma HitAgrees(h: Hashing, t: Tool, s: Shared, within: Disk -> bool, a: Arguments, clock: int, force: bool)
    requires CollisionFree(h) && Covers(h, t, within) && Faithful(h, t, s, within) && within(s.disk)
    ensures Normalize(Returned(h, t, s, a, clock, force)) == Normalize(t.build(s.disk, a, clock))
  {
    hide Normalize;
    if CacheHit(h, t, s, a, force) {
      var d, b, c :|
        && within(d)
        && s.manifest[t.key].inputFingerprint == ToolFingerprint(h, t, d, b)
        && s.disk[t.json].text == h.stable(t.build(d, b, c));
      FingerprintDetermines(h, t.name, s.disk, t.inputs(s.disk, a), t.extras(a), d, t.inputs(d, b), t.extras(b));
      assert h.load(h.stable(t.build(d, b, c))) == t.build(d, b, c);
    }
  }

  /** Every run of the history handed out what a fresh build would have, up to volatile keys. */
  ghost predicate AllRunsAgree(h: Hashing, s: Shared, events: seq<Event>)
    decreases |events|
  {
    events != [] ==>
      && (events[0].RunTool? ==>
            var e := events[0];
            Normalize(Returned(h, e.tool, s, e.arguments, e.clock, e.force)) == Normalize(e.tool.build(s.disk, e.arguments, e.clock)))
      && AllRunsAgree(h, After(h, s, events[0]), events[1..])
  }

  /** Between all its events the history's disk is one of those. */
  ghost predicate StaysWithin(h: Hashing, s: Shared, events: seq<Event>, within: Disk -> bool)
    decreases |events|
  {
    within(s.disk) && (events != [] ==> StaysWithin(h, After(h, s, events[0]), events[1..], within))
  }

  lemma {:induction false} HistoryAgrees(h: Hashing, tools: set<Tool>, s: Shared, events: seq<Event>, within: Disk -> bool)
    requires CollisionFree(h) && Separate(tools) && (forall t :: t in tools ==> Covers(h, t, within))
    requires AllFaithful(h, tools, s, within) && (forall e :: e in events ==> Permitted(tools, e)) && StaysWithin(h, s, events, within)
    ensures AllRunsAgree(h, s, events)
    decreases |events|
  {
    assert events != [] ==> events[0] in events;
    assert events != [] && events[0].RunTool? ==> events[0].tool in tools;
    hide After, Normalize, Returned, Covers, Permitted, CollisionFree, Separate;
    if events != [] {
      var e := events[0];
      if e.RunTool? {
        HitAgrees(h, e.tool, s, within, e.arguments, e.clock, e.force);
      }
      EventKeepsFaithful(h, tools, s, within, e);
      HistoryAgrees(h, tools, After(h, s, e), events[1..], within);
    }
  }

  /** From an empty cache, whatever is run in whatever order, no run hands out a stale artifact. */
  lemma CacheIsTransparent(h: Hashing, tools: set<Tool>, disk: Disk, events: seq<Event>, within: Disk -> bool)
    requires CollisionFree(h) && Separate(tools) && (forall t :: t in tools ==> Covers(h, t, within))
    requires (forall e :: e in events ==> Permitted(tools, e)) && StaysWithin(h, Shared(disk, map[]), events, within)
    ensures AllRunsAgree(h, Shared(disk, map[]), events)
  {
    HistoryAgrees(h, tools, Shared(disk, map[]), events, within);
  }

  /* ---------- and only then ---------- */

  /** The disks differ in the tool's own two files at most. */
  ghost predicate SameInputs(t: Tool, d: Disk, e: Disk) {
    forall path :: path != t.json && path != t.markdown ==> (path in d <==> path in e) && (path in d ==> d[path] == e[path])
  }

  /** The tool neither fingerprints nor reads its own outputs, nor do they decide whether a disk is one of those considered. */
  ghost predicate IgnoresOutputs(t: Tool, within: Disk -> bool) {
    && t.json != t.markdown
    && (forall d, a :: t.json !in t.inputs(d, a) && t.markdown !in t.inputs(d, a))
    && (forall d, e :: SameInputs(t, d, e) ==> within(d) == within(e))
    && (forall d, e, a :: SameInputs(t, d, e) ==> t.inputs(d, a) == t.inputs(e, a))
    && (forall d, e, a, c :: SameInputs(t, d, e) ==> Normalize(t.build(d, a, c)) == Normalize(t.build(e, a, c)))
  }

  /** Over every history of the tool on such disks, no run hands out a stale artifact. */
  ghost predicate Transparent(h: Hashing, t: Tool, within: Disk -> bool) {
    forall disk, events: seq<Event> ::
      (forall e :: e in events ==> Permitted({t}, e)) && StaysWithin(h, Shared(disk, map[]), events, within)
      ==> AllRunsAgree(h, Shared(disk, map[]), events)
  }

  /** Equal coverage means equal fingerprints. */
  lemma CoverageDetermines(h: Hashing, tool: string, d: Disk, ps: set<string>, xs: map<string, Extra>,
                           e: Disk, qs: set<string>, ys: map<string, Extra>)
    requires Covered(d, ps) == Covered(e, qs) && ExtraTexts(h, xs) == ExtraTexts(h, ys)
    ensures Fingerprint(h, tool, d, ps, xs) == Fingerprint(h, tool, e, qs, ys)
  {
    var f, g := FileFingerprint(h, d, ps), FileFingerprint(h, e, qs);
    assert f.Keys == Covered(d, ps).Keys && g.Keys == Covered(e, qs).Keys;
    forall path | path in f
      ensures path in g && f[path] == g[path]
    {
      assert Covered(d, ps)[path] == Covered(e, qs)[path];
    }
    assert f == g;
    assert Parts(h, tool, d, ps, xs) == Parts(h, tool, e, qs, ys) by {
      assert ExtraTexts(h, xs).Keys == xs.Keys && ExtraTexts(h, ys).Keys == ys.Keys;
      forall k | k in xs
        ensures ExtraText(h, xs[k]) == ExtraText(h, ys[k])
      {
        assert ExtraTexts(h, xs)[k] == ExtraTexts(h, ys)[k];
      }
    }
  }

  /** The inputs of `e` put in place, the tool's outputs left alone. */
  function Replacing(t: Tool, d: Disk, e: Disk): Event {
    Edit(map path | path in e && path != t.json && path != t.markdown :: e[path], d.Keys - e.Keys - {t.json, t.markdown})
  }

  lemma Replaced(h: Hashing, t: Tool, s: Shared, e: Disk)
    ensures var s' := After(h, s, Replacing(t, s.disk, e));
            && SameInputs(t, s'.disk, e) && s'.manifest == s.manifest && Permitted({t}, Replacing(t, s.disk, e))
            && (t.json in s.disk ==> t.json in s'.disk && s'.disk[t.json] == s.disk[t.json])
            && (t.markdown in s.disk ==> t.markdown in s'.disk)
  {
  }

  lemma FirstRun(h: Hashing, t: Tool, d: Disk, a: Arguments, c: int)
    requires t.json != t.markdown
    ensures var first := AfterRun(h, t, Shared(d, map[]), a, c, true);
            && SameInputs(t, first.disk, d)
            && t.key in first.manifest && first.manifest[t.key].inputFingerprint == ToolFingerprint(h, t, d, a)
            && t.json in first.disk && first.disk[t.json].text == h.stable(t.build(d, a, c)) && t.markdown in first.disk
  {
    hide ToolFingerprint;
  }

  lemma SameInputsSame(t: Tool, within: Disk -> bool, d: Disk, e: Disk, b: Arguments, k: int)
    requires IgnoresOutputs(t, within) && SameInputs(t, d, e)
    ensures t.inputs(d, b) == t.inputs(e, b) && Covered(d, t.inputs(d, b)) == Covered(e, t.inputs(e, b))
    ensures within(d) == within(e) && Normalize(t.build(d, b, k)) == Normalize(t.build(e, b, k))
  {
    hide Normalize;
    assert t.json !in t.inputs(d, b) && t.markdown !in t.inputs(d, b);
  }

  /** Run on one disk, put other inputs with the same coverage in place, run again: the first artifact comes back. */
  lemma SecondRunHits(h: Hashing, t: Tool, within: Disk -> bool, d: Disk, a: Arguments, c: int, e: Disk, b: Arguments, k: int)
    requires CollisionFree(h) && IgnoresOutputs(t, within)
    requires Covered(d, t.inputs(d, a)) == Covered(e, t.inputs(e, b)) && ExtraTexts(h, t.extras(a)) == ExtraTexts(h, t.extras(b))
    ensures var first := AfterRun(h, t, Shared(d, map[]), a, c, true);
            var second := After(h, first, Replacing(t, first.disk, e));
            && within(first.disk) == within(d) && within(second.disk) == within(e)
            && CacheHit(h, t, second, b, false)
            && Returned(h, t, second, b, k, false) == t.build(d, a, c)
            && Normalize(t.build(second.disk, b, k)) == Normalize(t.build(e, b, k))
  {
    assert t.json != t.markdown;
    hide Normalize, Fingerprint, Covered, ExtraTexts, SameInputs, IgnoresOutputs, AfterRun, After;
    var first := AfterRun(h, t, Shared(d, map[]), a, c, true);
    var second := After(h, first, Replacing(t, first.disk, e));
    FirstRun(h, t, d, a, c);
    Replaced(h, t, first, e);
    SameInputsSame(t, within, first.disk, d, a, c);
    SameInputsSame(t, within, second.disk, e, b, k);
    CoverageDetermines(h, t.name, d, t.inputs(d, a), t.extras(a), second.disk, t.inputs(second.disk, b), t.extras(b));
    assert h.load(h.stable(t.build(d, a, c))) == t.build(d, a, c);
  }

  /**
   A run whose inputs are still what they were when the artifact was written, its own two outputs
   included, is a hit, and hands out that very artifact, volatile keys and all.
   */
  lemma RepeatedRunHits(h: Hashing, t: Tool, s: Shared, a: Arguments, clock: int, force: bool, later: int)
    requires (forall p :: h.load(h.stable(p)) == p) && t.json != t.markdown
    requires var d := AfterRun(h, t, s, a, clock, force).disk;
             Covered(d, t.inputs(d, a)) == Covered(s.disk, t.inputs(s.disk, a))
    ensures var s' := AfterRun(h, t, s, a, clock, force);
            && CacheHit(h, t, s', a, false) && AfterRun(h, t, s', a, later, false) == s'
            && Returned(h, t, s', a, later, false) == Returned(h, t, s, a, clock, force)
  {
    hide Fingerprint, Covered, ExtraTexts;
    var d := AfterRun(h, t, s, a, clock, force).disk;
    CoverageDetermines(h, t.name, d, t.inputs(d, a), t.extras(a), s.disk, t.inputs(s.disk, a), t.extras(a));
  }

  lemma ThreeEvents(h: Hashing, s: Shared, e0: Event, e1: Event, e2: Event, within: Disk -> bool)
    ensures var s1 := After(h, s, e0); var s2 := After(h, s1, e1);
            StaysWithin(h, s, [e0, e1, e2], within)
            <==> within(s.disk) && within(s1.disk) && within(s2.disk) && within(After(h, s2, e2).disk)
    ensures var s2 := After(h, After(h, s, e0), e1);
            AllRunsAgree(h, s, [e0, e1, e2]) && e2.RunTool? ==>
              Normalize(Returned(h, e2.tool, s2, e2.arguments, e2.clock, e2.force))
              == Normalize(e2.tool.build(s2.disk, e2.arguments, e2.clock))
  {
    hide After, Normalize, Returned;
    assert [e0, e1, e2][1..] == [e1, e2] && [e1, e2][1..] == [e2] && [e2][1..] == [];
    var s1 := After(h, s, e0);
    var s2 := After(h, s1, e1);
    var s3 := After(h, s2, e2);
    assert StaysWithin(h, s3, [], within) <==> within(s3.disk);
    assert StaysWithin(h, s2, [e2], within) <==> within(s2.disk) && StaysWithin(h, s3, [], within);
    assert StaysWithin(h, s1, [e1, e2], within) <==> within(s1.disk) && StaysWithin(h, s2, [e2], within);
    assert AllRunsAgree(h, s, [e0, e1, e2]) ==> AllRunsAgree(h, s1, [e1, e2]);
    assert AllRunsAgree(h, s1, [e1, e2]) ==> AllRunsAgree(h, s2, [e2]);
  }

  lemma StaleHistory(h: Hashing, t: Tool, within: Disk -> bool, d: Disk, a: Arguments, c: int, e: Disk, b: Arguments, k: int)
    requires CollisionFree(h) && IgnoresOutputs(t, within) && Transparent(h, t, within)
    requires within(d) && within(e)
    requires Covered(d, t.inputs(d, a)) == Covered(e, t.inputs(e, b)) && ExtraTexts(h, t.extras(a)) == ExtraTexts(h, t.extras(b))
    ensures Normalize(t.build(d, a, c)) == Normalize(t.build(e, b, k))
  {
    hide Normalize, Covered, ExtraTexts, CollisionFree, IgnoresOutputs, AfterRun, CacheHit, Returned, Replacing, StaysWithin, AllRunsAgree,
      SameInputs;
    var s := Shared(d, map[]);
    var first := AfterRun(h, t, s, a, c, true);
    var e0, e1, e2 := RunTool(t, a, c, true), Replacing(t, first.disk, e), RunTool(t, b, k, false);
    var second := After(h, first, e1);
    Replaced(h, t, first, e);
    SecondRunHits(h, t, within, d, a, c, e, b, k);
    HitChangesNothing(h, t, second, b, k);
    ThreeEvents(h, s, e0, e1, e2, within);
    PermittedEvents(t, e0, e1, e2);
    assert AllRunsAgree(h, s, [e0, e1, e2]);
  }

  lemma HitChangesNothing(h: Hashing, t: Tool, s: Shared, a: Arguments, clock: int)
    requires CacheHit(h, t, s, a, false)
    ensures AfterRun(h, t, s, a, clock, false) == s
  {
  }

  lemma PermittedEvents(t: Tool, e0: Event, e1: Event, e2: Event)
    requires Permitted({t}, e0) && Permitted({t}, e1) && Permitted({t}, e2)
    ensures forall e :: e in [e0, e1, e2] ==> Permitted({t}, e)
  {
  }

  /**
   For a tool that does not read its own outputs: no history hands out a stale artifact if and
   only if its build is covered by its fingerprint.
   */
  lemma TransparentExactly(h: Hashing, t: Tool, within: Disk -> bool)
    requires CollisionFree(h) && NamesFixed(t) && IgnoresOutputs(t, within)
    ensures Transparent(h, t, within) <==> BuildCovered(h, t, within)
  {
    hide CollisionFree, NamesFixed, IgnoresOutputs, Normalize, Covered, ExtraTexts, StaysWithin, Permitted, AllRunsAgree;
    if BuildCovered(h, t, within) {
      OneToolSeparate(t, within);
      forall disk, events: seq<Event> |
        (forall e :: e in events ==> Permitted({t}, e)) && StaysWithin(h, Shared(disk, map[]), events, within)
        ensures AllRunsAgree(h, Shared(disk, map[]), events)
      {
        CacheIsTransparent(h, {t}, disk, events, within);
      }
    }
    if Transparent(h, t, within) {
      forall d, a, c, e, b, k |
        within(d) && within(e)
        && Covered(d, t.inputs(d, a)) == Covered(e, t.inputs(e, b)) && ExtraTexts(h, t.extras(a)) == ExtraTexts(h, t.extras(b))
        ensures Normalize(t.build(d, a, c)) == Normalize(t.build(e, b, k))
      {
        StaleHistory(h, t, within, d, a, c, e, b, k);
      }
    }
  }

  lemma OneToolSeparate(t: Tool, within: Disk -> bool)
    requires IgnoresOutputs(t, within)
    ensures Separate({t})
  {
  }

  /* ---------- which arguments the fingerprints cover ---------- */

  /** The loopback doctor passes both arguments to its fingerprint. */
  function LoopbackExtras(a: Arguments): map<string, Extra> {
    map["clusterId" := Word(a.clusterId), "attemptLimit" := Number(a.attemptLimit)]
  }

  /** The post-scene doctor passes none. */
  function PostSceneExtras(a: Arguments): map<string, Extra> {
    map[]
  }

  /** Equal loopback extras mean equal arguments. */
  lemma LoopbackCoversArguments(h: Hashing, a: Arguments, b: Arguments)
    requires CollisionFree(h) && ExtraTexts(h, LoopbackExtras(a)) == ExtraTexts(h, LoopbackExtras(b))
    ensures a == b
  {
    var x, y := ExtraTexts(h, LoopbackExtras(a)), ExtraTexts(h, LoopbackExtras(b));
    assert x["clusterId"] == a.clusterId && y["clusterId"] == b.clusterId;
    assert x["attemptLimit"] == Show(a.attemptLimit) && y["attemptLimit"] == Show(b.attemptLimit);
    ShowInjective(a.attemptLimit, b.attemptLimit);
  }

  /* ---------- which files the loopback doctor's fingerprint covers ---------- */

  /** Its fixed input files, which files are capture logs, and the capture logs of a disk as it lists them. */
  datatype Doctor = Doctor(fixed: set<string>, log: string -> bool, list: Disk -> seq<string>)

  ghost predicate SameTimes(w: Doctor, d: Disk, e: Disk) {
    forall path :: w.log(path) ==> (path in d <==> path in e) && (path in d ==> d[path].modified == e[path].modified)
  }

  /** `list_content_capture_logs`: every capture log once, the latest written last, as names and times determine. */
  ghost predicate ListsLogs(w: Doctor) {
    && (forall path :: path in w.fixed ==> !w.log(path))
    && (forall d: Disk, path :: path in w.list(d) <==> path in d && w.log(path))
    && (forall d: Disk, i, j :: 0 <= i < j < |w.list(d)| ==> w.list(d)[i] != w.list(d)[j])
    && (forall d: Disk, i, j :: 0 <= i < j < |w.list(d)| && w.list(d)[i] in d && w.list(d)[j] in d ==>
          d[w.list(d)[i]].modified <= d[w.list(d)[j]].modified)
    && (forall d, e :: SameTimes(w, d, e) ==> w.list(d) == w.list(e))
  }

  const RECENT_LOGS: nat := 256

  /** `content_logs[-256:]`. */
  function Recent(logs: seq<string>): seq<string> {
    if |logs| <= RECENT_LOGS then logs else logs[|logs| - RECENT_LOGS..]
  }

  function LoopbackInputs(w: Doctor, d: Disk): set<string> {
    w.fixed + set path | path in Recent(w.list(d))
  }

  function LoopbackFingerprint(h: Hashing, w: Doctor, d: Disk, a: Arguments): string {
    Fingerprint(h, "run_946_loopback_doctor", d, LoopbackInputs(w, d), LoopbackExtras(a))
  }

  /** What the build reads of the capture logs: all of them, in their order. */
  function Contents(d: Disk, logs: seq<string>): seq<(string, string)> {
    seq(|logs|, i requires 0 <= i < |logs| => (logs[i], if logs[i] in d then d[logs[i]].text else ""))
  }

  /** A tool that fingerprints what the loopback doctor does and reads what it does. */
  ghost predicate IsLoopback(t: Tool, w: Doctor) {
    && (forall a :: t.extras(a) == LoopbackExtras(a))
    && (forall d, a :: t.inputs(d, a) == LoopbackInputs(w, d))
    && (forall d, e, a, c, k ::
          Covered(d, w.fixed) == Covered(e, w.fixed) && Contents(d, w.list(d)) == Contents(e, w.list(e))
          ==> Normalize(t.build(d, a, c)) == Normalize(t.build(e, a, k)))
  }

  /** At most 256 logs, listed in the order of their names. */
  predicate Manageable(w: Doctor, rank: string -> int, d: Disk) {
    && |w.list(d)| <= RECENT_LOGS
    && forall i, j :: 0 <= i < j < |w.list(d)| ==> rank(w.list(d)[i]) < rank(w.list(d)[j])
  }

  predicate Ascending(rank: string -> int, xs: seq<string>) {
    forall i, j :: 0 <= i < j < |xs| ==> rank(xs[i]) < rank(xs[j])
  }

  /** Two ascending lists of the same names are the same list. */
  lemma {:induction false} AscendingUnique(rank: string -> int, xs: seq<string>, ys: seq<string>)
    requires Ascending(rank, xs) && Ascending(rank, ys) && (forall x :: x in xs <==> x in ys)
    ensures xs == ys
    decreases |xs|
  {
    BothEmpty(xs, ys);
    if xs != [] {
      FirstIsLeast(rank, xs, ys);
      FirstIsLeast(rank, ys, xs);
      assert xs[0] in ys && ys[0] in xs;
      RestAscends(rank, xs);
      RestAscends(rank, ys);
      AscendingUnique(rank, xs[1..], ys[1..]);
      assert xs == [xs[0]] + xs[1..] && ys == [ys[0]] + ys[1..];
    }
  }

  lemma BothEmpty(xs: seq<string>, ys: seq<string>)
    requires forall x :: x in xs <==> x in ys
    ensures xs == [] <==> ys == []
  {
    assert xs != [] ==> xs[0] in ys;
    assert ys != [] ==> ys[0] in xs;
  }

  lemma FirstIsLeast(rank: string -> int, xs: seq<string>, ys: seq<string>)
    requires Ascending(rank, xs) && xs != [] && ys != [] && ys[0] in xs
    ensures rank(xs[0]) <= rank(ys[0]) && (rank(xs[0]) == rank(ys[0]) ==> xs[0] == ys[0])
  {
    var i :| 0 <= i < |xs| && xs[i] == ys[0];
  }

  lemma RestAscends(rank: string -> int, xs: seq<string>)
    requires Ascending(rank, xs) && xs != []
    ensures Ascending(rank, xs[1..])
    ensures forall x :: x in xs[1..] <==> x in xs && x != xs[0]
  {
    forall x | x in xs && x != xs[0]
      ensures x in xs[1..]
    {
      var i :| 0 <= i < |xs| && xs[i] == x;
      assert xs[1..][i - 1] == x;
    }
  }

  /** Equal coverage of two such disks: the same fixed inputs, and the same logs in the same order. */
  lemma SameContents(w: Doctor, rank: string -> int, d: Disk, e: Disk)
    requires ListsLogs(w) && Manageable(w, rank, d) && Manageable(w, rank, e)
    requires Covered(d, LoopbackInputs(w, d)) == Covered(e, LoopbackInputs(w, e))
    ensures Covered(d, w.fixed) == Covered(e, w.fixed) && Contents(d, w.list(d)) == Contents(e, w.list(e))
  {
    var x, y := Covered(d, LoopbackInputs(w, d)), Covered(e, LoopbackInputs(w, e));
    SharedTexts(w, d, e);
    SharedTexts(w, e, d);
    assert Covered(d, w.fixed) == Covered(e, w.fixed);
    AscendingUnique(rank, w.list(d), w.list(e));
  }

  lemma SharedTexts(w: Doctor, d: Disk, e: Disk)
    requires ListsLogs(w) && |w.list(d)| <= RECENT_LOGS
    requires Covered(d, LoopbackInputs(w, d)) == Covered(e, LoopbackInputs(w, e))
    ensures forall path :: path in w.fixed && path in d ==> path in e && d[path].text == e[path].text
    ensures forall path :: path in w.list(d) ==> path in w.list(e) && path in d && path in e && d[path].text == e[path].text
  {
    var x, y := Covered(d, LoopbackInputs(w, d)), Covered(e, LoopbackInputs(w, e));
    forall path | path in d && (path in w.fixed || path in w.list(d))
      ensures path in e && d[path].text == e[path].text
    {
      assert path in x && path in y && x[path] == y[path];
    }
  }

  /** While there are at most 256 logs, listed in the order of their names, the loopback build is covered. */
  lemma LoopbackCovered(h: Hashing, t: Tool, w: Doctor, rank: string -> int)
    requires CollisionFree(h) && IsLoopback(t, w) && ListsLogs(w)
    ensures Covers(h, t, d => Manageable(w, rank, d))
  {
    hide Normalize, Covered, ExtraTexts, CollisionFree, Contents, ListsLogs, LoopbackInputs;
    forall a, b
      ensures t.extras(a).Keys == t.extras(b).Keys && "tool" !in t.extras(a) && "paths" !in t.extras(a)
    {
      assert t.extras(a) == LoopbackExtras(a) && t.extras(b) == LoopbackExtras(b);
    }
    forall d, a, c, e, b, k |
      Manageable(w, rank, d) && Manageable(w, rank, e)
      && Covered(d, t.inputs(d, a)) == Covered(e, t.inputs(e, b)) && ExtraTexts(h, t.extras(a)) == ExtraTexts(h, t.extras(b))
      ensures Normalize(t.build(d, a, c)) == Normalize(t.build(e, b, k))
    {
      LoopbackCoversArguments(h, a, b);
      SameContents(w, rank, d, e);
    }
  }

  /** One log with another text, its time left as it was. */
  function Rewritten(d: Disk, path: string, text: string): Disk
    requires path in d
  {
    d[path := d[path].(text := text)]
  }

  ghost predicate EditsShow(h: Hashing, w: Doctor, d: Disk, a: Arguments) {
    forall path, text :: path in w.list(d) && path in d && text != d[path].text ==>
      LoopbackFingerprint(h, w, Rewritten(d, path, text), a) != LoopbackFingerprint(h, w, d, a)
  }

  /** Every edit of a log changes the fingerprint if and only if there are at most 256 logs. */
  lemma EditsShowExactly(h: Hashing, w: Doctor, d: Disk, a: Arguments)
    requires CollisionFree(h) && ListsLogs(w)
    ensures EditsShow(h, w, d, a) <==> |w.list(d)| <= RECENT_LOGS
  {
    hide Fingerprint, CollisionFree;
    if |w.list(d)| <= RECENT_LOGS {
      forall path, text | path in w.list(d) && path in d && text != d[path].text
        ensures LoopbackFingerprint(h, w, Rewritten(d, path, text), a) != LoopbackFingerprint(h, w, d, a)
      {
        EditShows(h, w, d, path, text, a);
      }
    } else {
      OldestUnseen(h, w, d, d[w.list(d)[0]].text + "!", a);
      assert d[w.list(d)[0]].text + "!" != d[w.list(d)[0]].text;
    }
  }

  lemma EditShows(h: Hashing, w: Doctor, d: Disk, path: string, text: string, a: Arguments)
    requires CollisionFree(h) && ListsLogs(w) && |w.list(d)| <= RECENT_LOGS
    requires path in w.list(d) && path in d && text != d[path].text
    ensures LoopbackFingerprint(h, w, Rewritten(d, path, text), a) != LoopbackFingerprint(h, w, d, a)
  {
    hide Fingerprint, CollisionFree;
    var e := Rewritten(d, path, text);
    assert SameTimes(w, d, e);
    assert path in Recent(w.list(d)) && path in LoopbackInputs(w, d) && path in LoopbackInputs(w, e);
    assert Covered(e, LoopbackInputs(w, e))[path] != Covered(d, LoopbackInputs(w, d))[path];
    if LoopbackFingerprint(h, w, e, a) == LoopbackFingerprint(h, w, d, a) {
      FingerprintDetermines(h, "run_946_loopback_doctor", e, LoopbackInputs(w, e), LoopbackExtras(a), d, LoopbackInputs(w, d), LoopbackExtras(a));
    }
  }

  lemma OldestNotRecent(w: Doctor, d: Disk)
    requires ListsLogs(w) && |w.list(d)| > RECENT_LOGS
    ensures w.list(d)[0] in d && w.log(w.list(d)[0]) && w.list(d)[0] !in LoopbackInputs(w, d)
  {
    var logs := w.list(d);
    assert logs[0] in logs;
    var n := |logs| - RECENT_LOGS;
    forall path | path in Recent(logs)
      ensures path != logs[0]
    {
      var i :| 0 <= i < |Recent(logs)| && Recent(logs)[i] == path;
      assert logs[n + i] == path;
    }
  }

  /** With more than 256 logs the oldest is not fingerprinted: whatever is written to it goes unseen. */
  lemma OldestUnseen(h: Hashing, w: Doctor, d: Disk, text: string, a: Arguments)
    requires ListsLogs(w) && |w.list(d)| > RECENT_LOGS
    ensures w.list(d)[0] in d
    ensures var e := Rewritten(d, w.list(d)[0], text);
            && Covered(e, LoopbackInputs(w, e)) == Covered(d, LoopbackInputs(w, d))
            && LoopbackFingerprint(h, w, e, a) == LoopbackFingerprint(h, w, d, a)
  {
    OldestNotRecent(w, d);
    var e := Rewritten(d, w.list(d)[0], text);
    assert SameTimes(w, d, e);
    assert w.list(e) == w.list(d);
    hide Fingerprint, ListsLogs, Recent;
    CoverageDetermines(h, "run_946_loopback_doctor", e, LoopbackInputs(w, e), LoopbackExtras(a), d, LoopbackInputs(w, d), LoopbackExtras(a));
  }

  /** Nor does the fingerprint see the order in which the logs were written, which the build follows. */
  lemma OrderUnseen(h: Hashing, w: Doctor, d: Disk, e: Disk, a: Arguments)
    requires ListsLogs(w) && |w.list(d)| <= RECENT_LOGS && |w.list(e)| <= RECENT_LOGS
    requires forall path :: (path in d <==> path in e) && (path in d ==> d[path].text == e[path].text)
    ensures LoopbackFingerprint(h, w, d, a) == LoopbackFingerprint(h, w, e, a)
  {
    hide Fingerprint;
    assert LoopbackInputs(w, d) == LoopbackInputs(w, e);
    CoverageDetermines(h, "run_946_loopback_doctor", d, LoopbackInputs(w, d), LoopbackExtras(a), e, LoopbackInputs(w, e), LoopbackExtras(a));
  }

  /** So, over all disks, such a tool never hands out a stale artifact only if its build does not depend on the oldest of more than 256 logs. */
  lemma OldLogsGoStale(h: Hashing, t: Tool, w: Doctor, d: Disk, text: string, a: Arguments, c: int, k: int)
    requires CollisionFree(h) && IsLoopback(t, w) && ListsLogs(w) && IgnoresOutputs(t, _ => true)
    requires |w.list(d)| > RECENT_LOGS && w.list(d)[0] in d
    requires Normalize(t.build(d, a, c)) != Normalize(t.build(Rewritten(d, w.list(d)[0], text), a, k))
    ensures !Transparent(h, t, _ => true)
  {
    hide Normalize, Covered, CollisionFree, ListsLogs, IgnoresOutputs, Transparent;
    OldestUnseen(h, w, d, text, a);
    if Transparent(h, t, _ => true) {
      StaleHistory(h, t, _ => true, d, a, c, Rewritten(d, w.list(d)[0], text), a, k);
    }
  }

  /* ---------- a tool that fingerprints no argument ---------- */

  /**
   The post-scene doctor: nothing but listed files and arguments is read, and no argument is
   fingerprinted. It never hands out a stale artifact if and only if the arguments do not matter.
   */
  lemma PostSceneTransparentExactly(h: Hashing, t: Tool, within: Disk -> bool)
    requires CollisionFree(h) && IgnoresOutputs(t, within) && (forall a :: t.extras(a) == PostSceneExtras(a))
    requires forall d, a, b :: t.inputs(d, a) == t.inputs(d, b)
    requires forall d, e, a, c, k :: within(d) && within(e) && Covered(d, t.inputs(d, a)) == Covered(e, t.inputs(e, a))
               ==> Normalize(t.build(d, a, c)) == Normalize(t.build(e, a, k))
    ensures Transparent(h, t, within)
            <==> (forall d, a, c, b, k :: within(d) ==> Normalize(t.build(d, a, c)) == Normalize(t.build(d, b, k)))
  {
    hide Normalize, Covered, CollisionFree, IgnoresOutputs, Transparent;
    forall a, b
      ensures t.extras(a).Keys == t.extras(b).Keys && "tool" !in t.extras(a) && "paths" !in t.extras(a)
      ensures ExtraTexts(h, t.extras(a)) == ExtraTexts(h, t.extras(b))
    {
      assert t.extras(a) == map[] && t.extras(b) == map[];
    }
    TransparentExactly(h, t, within);
    if BuildCovered(h, t, within) {
      forall d, a, c, b, k | within(d)
        ensures Normalize(t.build(d, a, c)) == Normalize(t.build(d, b, k))
      {
        assert t.inputs(d, a) == t.inputs(d, b);
      }
    }
    if forall d, a, c, b, k :: within(d) ==> Normalize(t.build(d, a, c)) == Normalize(t.build(d, b, k)) {
      forall d, a, c, e, b, k |
        within(d) && within(e)
        && Covered(d, t.inputs(d, a)) == Covered(e, t.inputs(e, b)) && ExtraTexts(h, t.extras(a)) == ExtraTexts(h, t.extras(b))
        ensures Normalize(t.build(d, a, c)) == Normalize(t.build(e, b, k))
      {
        assert t.inputs(e, a) == t.inputs(e, b);
        assert Normalize(t.build(d, a, c)) == Normalize(t.build(e, a, k));
      }
    }
  }

  /**
   A tool that fingerprints neither argument, although its build depends on them, hands out a
   stale artifact: run with `a`, then with `b`, nothing else changing.
   */
  lemma UncoveredArgumentsGoStale(h: Hashing, t: Tool, s: Shared, a: Arguments, b: Arguments, c: int, k: int)
    requires CollisionFree(h) && t.json != t.markdown
    requires forall x :: t.extras(x) == PostSceneExtras(x)
    requires forall d, x :: t.inputs(d, x) == t.inputs(s.disk, a) && t.json !in t.inputs(d, x) && t.markdown !in t.inputs(d, x)
    requires var second := AfterRun(h, t, s, a, c, true);
             Normalize(t.build(s.disk, a, c)) != Normalize(t.build(second.disk, b, k))
    ensures var second := AfterRun(h, t, s, a, c, true);
            && CacheHit(h, t, second, b, false)
            && Normalize(Returned(h, t, second, b, k, false)) != Normalize(t.build(second.disk, b, k))
  {
    hide Normalize;
    var second, paths := AfterRun(h, t, s, a, c, true), t.inputs(s.disk, a);
    assert t.inputs(second.disk, b) == paths && t.extras(a) == t.extras(b) == map[];
    SameFiles(h, s.disk, second.disk, paths);
    assert ToolFingerprint(h, t, second.disk, b) == ToolFingerprint(h, t, s.disk, a);
    assert h.load(h.stable(t.build(s.disk, a, c))) == t.build(s.disk, a, c);
  }

  lemma SameFiles(h: Hashing, d: Disk, e: Disk, paths: set<string>)
    requires forall path :: path in paths ==> (path in d <==> path in e) && (path in d ==> d[path].text == e[path].text)
    ensures FileFingerprint(h, d, paths) == FileFingerprint(h, e, paths)
  {
  }
}
