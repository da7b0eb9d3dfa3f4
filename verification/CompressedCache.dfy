/** The cache of compressed files, over every run of edits, deletions, requests, saves and restarts. */
module CompressedCache {
  import opened Wrappers

  type Content = seq<nat>

  datatype Error = DuplicateKey

  /** A file's entry: its write time when it was compressed, and the compressed file's name. */
  datatype Info = Info(lastWrite: string, compressed: string)

  /** Entries by algorithm, then by file. */
  type Cache = map<string, map<string, Info>>

  // ---- the two operations ----------------------------------------------------------------------

  predicate Hit(cache: Cache, file: string, algorithm: string, lastWrite: string, names: set<string>) {
    && algorithm in cache && file in cache[algorithm]
    && cache[algorithm][file].lastWrite == lastWrite && cache[algorithm][file].compressed in names
  }

  predicate Cached(cache: Cache, file: string, algorithm: string) {
    algorithm in cache && file in cache[algorithm]
  }

  function Without(cache: Cache, file: string, algorithm: string): Cache {
    if Cached(cache, file, algorithm) then cache[algorithm := cache[algorithm] - {file}] else cache
  }

  function With(cache: Cache, file: string, algorithm: string, info: Info): Cache {
    cache[algorithm := (if algorithm in cache then cache[algorithm] else map[])[file := info]]
  }

  class Site {
    var cacheConfig: Cache

    constructor (loaded: Cache)
      ensures cacheConfig == loaded
    {
      cacheConfig := loaded;
    }

    /** lastWrite is the file's write time, names the files that exist. */
    method GetCompressedCacheFile(file: string, algorithm: string, lastWrite: string, names: set<string>)
        returns (compressed: Option<string>)
      modifies this
      ensures if Hit(old(cacheConfig), file, algorithm, lastWrite, names)
        then compressed == Some(old(cacheConfig)[algorithm][file].compressed) && cacheConfig == old(cacheConfig)
        else compressed == None && cacheConfig == Without(old(cacheConfig), file, algorithm)
    {
      if algorithm !in cacheConfig {
        return None;
      }
      var files := cacheConfig[algorithm];
      if file !in files {
        return None;
      }
      var info := files[file];
      if info.lastWrite == lastWrite {
        if info.compressed in names {
          return Some(info.compressed);
        }
      }
      cacheConfig := cacheConfig[algorithm := files - {file}];
      return None;
    }

    /** insert throws on a key that is there. */
    method SetCompressedCacheFile(file: string, compressed: string, algorithm: string, lastWrite: string)
        returns (inserted: bool)
      modifies this
      ensures if Cached(old(cacheConfig), file, algorithm)
        then !inserted && cacheConfig == old(cacheConfig)
        else inserted && cacheConfig == With(old(cacheConfig), file, algorithm, Info(lastWrite, compressed))
    {
      if algorithm !in cacheConfig {
        cacheConfig := cacheConfig[algorithm := map[]];
      }
      var info := Info(lastWrite, compressed);
      if file in cacheConfig[algorithm] {
        return false;
      }
      cacheConfig := cacheConfig[algorithm := cacheConfig[algorithm][file := info]];
      return true;
    }

    /** compress_file: made tells that the compressor has written the file of the new name. */
    method CompressFile(file: string, algorithm: string, lastWrite: string, names: set<string>, newName: string)
        returns (r: Result<string, Error>, made: bool)
      modifies this
      ensures (r, made, cacheConfig) == Served(old(cacheConfig), file, algorithm, lastWrite, names, newName)
    {
      var cached := GetCompressedCacheFile(file, algorithm, lastWrite, names);
      if cached == None {
        made := true;
        var inserted := SetCompressedCacheFile(file, newName, algorithm, lastWrite);
        return if inserted then Ok(newName) else Err(DuplicateKey), made;
      }
      return Ok(cached.value), false;
    }
  }

  /** What compress_file gives, in terms of the cache before: never the duplicate-key error. */
  function Served(cache: Cache, file: string, algorithm: string, lastWrite: string, names: set<string>,
      newName: string):
      (Result<string, Error>, bool, Cache) {
    if Hit(cache, file, algorithm, lastWrite, names) then (Ok(cache[algorithm][file].compressed), false, cache)
    else (Ok(newName), true, With(Without(cache, file, algorithm), file, algorithm, Info(lastWrite, newName)))
  }

  // ---- every run -------------------------------------------------------------------------------

  datatype File = File(content: Content, lastWrite: string)

  /** What a compressed file holds: the algorithm and the content it was made from. */
  datatype Compressed = Compressed(algorithm: string, content: Content)

  /** saved is the configuration file. history: every name the compressor has used, and every content
      a file has had at a write time. */
  datatype State = State(
    cache: Cache, saved: Cache, files: map<string, File>, disk: map<string, Compressed>,
    usedNames: set<string>, had: set<(string, string, Content)>)

  datatype Event =
    | Edit(file: string, content: Content, lastWrite: string)
    | Delete(name: string)
    | Request(file: string, algorithm: string, newName: string)
    | Save
    | Restart

  /** A request is for a file that is there, and the compressor's name is new. */
  predicate Enabled(s: State, e: Event) {
    e.Request? ==> e.file in s.files && e.newName !in s.usedNames
  }

  function Answer(s: State, e: Event): Result<string, Error>
    requires e.Request? && Enabled(s, e)
  {
    Served(s.cache, e.file, e.algorithm, s.files[e.file].lastWrite, s.disk.Keys, e.newName).0
  }

  function Do(s: State, e: Event): State
    requires Enabled(s, e)
  {
    match e
    case Edit(file, content, lastWrite) =>
      s.(files := s.files[file := File(content, lastWrite)], had := s.had + {(file, lastWrite, content)})
    case Delete(name) => s.(disk := s.disk - {name})
    case Request(file, algorithm, newName) =>
      var served := Served(s.cache, file, algorithm, s.files[file].lastWrite, s.disk.Keys, newName);
      if served.1 then
        s.(cache := served.2, disk := s.disk[newName := Compressed(algorithm, s.files[file].content)],
           usedNames := s.usedNames + {newName})
      else s.(cache := served.2)
    case Save => s.(saved := s.cache)
    case Restart => s.(cache := s.saved)
  }

  predicate Initial(s: State) {
    s.cache == map[] && s.saved == map[] && s.files == map[] && s.disk == map[] && s.usedNames == {} && s.had == {}
  }

  predicate IsRun(s: State, events: seq<Event>)
    decreases |events|
  {
    events == [] || (Enabled(s, events[0]) && IsRun(Do(s, events[0]), events[1..]))
  }

  function After(s: State, events: seq<Event>): State
    requires IsRun(s, events)
    decreases |events|
  {
    if events == [] then s else After(Do(s, events[0]), events[1..])
  }

  /** An entry whose compressed file exists was made, by its algorithm, from a content the file had at
      the entry's write time. */
  predicate Sound(s: State, algorithm: string, file: string, info: Info) {
    && info.compressed in s.usedNames
    && (info.compressed in s.disk ==>
          var c := s.disk[info.compressed];
          c.algorithm == algorithm && (file, info.lastWrite, c.content) in s.had)
  }

  predicate AllSound(s: State, cache: Cache) {
    forall a, f :: a in cache && f in cache[a] ==> Sound(s, a, f, cache[a][f])
  }

  predicate Invariant(s: State) {
    && AllSound(s, s.cache) && AllSound(s, s.saved)
    && s.disk.Keys <= s.usedNames
    && (forall f :: f in s.files ==> (f, s.files[f].lastWrite, s.files[f].content) in s.had)
  }

  /** Sound entries stay sound when files go, or are made under new names, and when history grows. */
  lemma StaysSound(s: State, u: State, cache: Cache)
    requires AllSound(s, cache) && s.usedNames <= u.usedNames && s.had <= u.had
    requires forall n :: n in u.disk && n in s.usedNames ==> n in s.disk && u.disk[n] == s.disk[n]
    ensures AllSound(u, cache)
  {
    forall a, f | a in cache && f in cache[a] ensures Sound(u, a, f, cache[a][f]) {
      assert Sound(s, a, f, cache[a][f]);
    }
  }

  lemma StepKeepsInvariant(s: State, e: Event)
    requires Enabled(s, e) && Invariant(s)
    ensures Invariant(Do(s, e))
  {
    hide AllSound, Served;
    var u := Do(s, e);
    match e
    case Request(file, algorithm, newName) => RequestKeepsInvariant(s, e);
    case _ =>
      StaysSound(s, u, s.cache);
      StaysSound(s, u, s.saved);
  }

  lemma RequestKeepsInvariant(s: State, e: Event)
    requires e.Request? && Enabled(s, e) && Invariant(s)
    ensures Invariant(Do(s, e))
  {
    hide AllSound;
    var u := Do(s, e);
    StaysSound(s, u, s.cache);
    StaysSound(s, u, s.saved);
    if !Hit(s.cache, e.file, e.algorithm, s.files[e.file].lastWrite, s.disk.Keys) {
      NewEntryIsSound(u, s.cache, e.file, e.algorithm, Info(s.files[e.file].lastWrite, e.newName));
    }
  }

  lemma NewEntryIsSound(u: State, cache: Cache, file: string, algorithm: string, info: Info)
    requires AllSound(u, cache) && Sound(u, algorithm, file, info)
    ensures AllSound(u, With(Without(cache, file, algorithm), file, algorithm, info))
  {
  }

  lemma {:induction false} RunKeepsInvariant(s: State, events: seq<Event>)
    requires Invariant(s) && IsRun(s, events)
    ensures Invariant(After(s, events))
    decreases |events|
  {
    hide Invariant, Do, Enabled;
    if events != [] {
      StepKeepsInvariant(s, events[0]);
      RunKeepsInvariant(Do(s, events[0]), events[1..]);
    }
  }

  /** The file has had only one content at its current write time. */
  ghost predicate TimeTells(s: State, file: string)
    requires file in s.files
  {
    forall c :: (file, s.files[file].lastWrite, c) in s.had ==> c == s.files[file].content
  }

  /** After any run, a request is answered without an error by a file that exists and that the
      algorithm made from a content the file has had at its current write time: from the current one,
      if that time has not been used for another. */
  lemma RequestServesCurrent(s: State, events: seq<Event>, e: Event)
    requires Initial(s) && IsRun(s, events) && e.Request? && Enabled(After(s, events), e)
    ensures var t := After(s, events); var u := Do(t, e); var r := Answer(t, e);
      && r.Ok? && r.value in u.disk && u.disk[r.value].algorithm == e.algorithm
      && (e.file, t.files[e.file].lastWrite, u.disk[r.value].content) in t.had
      && (TimeTells(t, e.file) ==> u.disk[r.value] == Compressed(e.algorithm, t.files[e.file].content))
  {
    RunKeepsInvariant(s, events);
    var t := After(s, events);
    if Hit(t.cache, e.file, e.algorithm, t.files[e.file].lastWrite, t.disk.Keys) {
      assert Sound(t, e.algorithm, e.file, t.cache[e.algorithm][e.file]);
    }
  }

  /** Asked again, a request is answered by the same file, and nothing changes: it has not been compressed again; and
      the same after the configuration has been saved and read in again. */
  lemma AskedAgain(s: State, e: Event, newName: string)
    requires e.Request? && Enabled(s, e) && Enabled(Do(s, e), e.(newName := newName))
    ensures var u := Do(s, e); var again := e.(newName := newName);
      && Answer(u, again) == Answer(s, e) && Do(u, again) == u
      && var v := Do(Do(u, Save), Restart); Answer(v, again) == Answer(s, e) && Do(v, again) == v
  {
    hide Without;
  }

  /** The entries of other files and of other algorithms stay as they are. */
  lemma OthersStay(s: State, e: Event, file: string, algorithm: string)
    requires e.Request? && Enabled(s, e) && (file, algorithm) != (e.file, e.algorithm)
    ensures var u := Do(s, e);
      && (Cached(u.cache, file, algorithm) <==> Cached(s.cache, file, algorithm))
      && (Cached(s.cache, file, algorithm) ==> u.cache[algorithm][file] == s.cache[algorithm][file])
  {
  }

  /** Every edit gives the file a write time it has not had. */
  ghost predicate NewTimes(s: State, events: seq<Event>)
    requires IsRun(s, events)
    decreases |events|
  {
    events == [] ||
    (&& (events[0].Edit? ==> forall c :: (events[0].file, events[0].lastWrite, c) !in s.had)
     && NewTimes(Do(s, events[0]), events[1..]))
  }

  /** Then write times tell contents apart, in every run. */
  lemma {:induction false} NewTimesTell(s: State, events: seq<Event>)
    requires IsRun(s, events) && NewTimes(s, events) && Functional(s)
    ensures Functional(After(s, events))
    decreases |events|
  {
    if events != [] { NewTimesTell(Do(s, events[0]), events[1..]); }
  }

  /** One content for a file and a write time; a file has its last one. */
  ghost predicate Functional(s: State) {
    && (forall f, w, c, d :: (f, w, c) in s.had && (f, w, d) in s.had ==> c == d)
    && (forall f :: f in s.files ==> (f, s.files[f].lastWrite, s.files[f].content) in s.had)
  }

  /** With new write times on every edit, a request is always answered as by recompressing. */
  lemma AgreesWithRecompressing(s: State, events: seq<Event>, e: Event)
    requires Initial(s) && IsRun(s, events) && NewTimes(s, events) && e.Request? && Enabled(After(s, events), e)
    ensures var t := After(s, events); var u := Do(t, e); var r := Answer(t, e);
      r.Ok? && r.value in u.disk && u.disk[r.value] == Compressed(e.algorithm, t.files[e.file].content)
  {
    NewTimesTell(s, events);
    RequestServesCurrent(s, events, e);
  }

  // ---- exactly when ----------------------------------------------------------------------------

  /** The edits of a run. */
  function Edits(events: seq<Event>): seq<Event> {
    if events == [] then []
    else (if events[0].Edit? then [events[0]] else []) + Edits(events[1..])
  }

  predicate AllEdits(events: seq<Event>) {
    forall k :: 0 <= k < |events| ==> events[k].Edit?
  }

  /** The request is answered by the current content, compressed. */
  predicate ServesCurrent(s: State, e: Event)
    requires e.Request? && Enabled(s, e)
  {
    var r := Answer(s, e);
    var u := Do(s, e);
    r.Ok? && r.value in u.disk && u.disk[r.value] == Compressed(e.algorithm, s.files[e.file].content)
  }

  /** Whatever else happens between some edits, a request for the file is answered by its content then. */
  ghost predicate AlwaysServesCurrent(s: State, edits: seq<Event>, file: string, algorithm: string) {
    forall run, newName ::
      IsRun(s, run) && Edits(run) == edits && Enabled(After(s, run), Request(file, algorithm, newName)) ==>
        ServesCurrent(After(s, run), Request(file, algorithm, newName))
  }

  lemma {:induction false} RunConcat(s: State, a: seq<Event>, b: seq<Event>)
    requires IsRun(s, a) && IsRun(After(s, a), b)
    ensures IsRun(s, a + b) && After(s, a + b) == After(After(s, a), b)
    decreases |a|
  {
    hide Do, Enabled;
    if a == [] {
      assert a + b == b;
    } else {
      assert (a + b)[0] == a[0] && (a + b)[1..] == a[1..] + b;
      RunConcat(Do(s, a[0]), a[1..], b);
    }
  }

  lemma {:induction false} EditsConcat(a: seq<Event>, b: seq<Event>)
    ensures Edits(a + b) == Edits(a) + Edits(b)
    decreases |a|
  {
    if a == [] {
      assert a + b == b;
    } else {
      assert (a + b)[0] == a[0] && (a + b)[1..] == a[1..] + b;
      EditsConcat(a[1..], b);
    }
  }

  /** Edits alone are a run, and leave the cache and the compressed files as they are. */
  lemma {:induction false} EditsRun(s: State, edits: seq<Event>)
    requires AllEdits(edits)
    ensures IsRun(s, edits) && Edits(edits) == edits
    ensures var t := After(s, edits); (t.cache, t.disk, t.usedNames) == (s.cache, s.disk, s.usedNames)
    decreases |edits|
  {
    if edits != [] {
      EditsRun(Do(s, edits[0]), edits[1..]);
      assert edits == [edits[0]] + edits[1..];
    }
  }

  /** Files and their history depend on the edits alone. */
  lemma {:induction false} FilesFromEdits(s: State, u: State, run: seq<Event>)
    requires IsRun(s, run) && (s.files, s.had) == (u.files, u.had)
    ensures IsRun(u, Edits(run))
    ensures (After(s, run).files, After(s, run).had) == (After(u, Edits(run)).files, After(u, Edits(run)).had)
    decreases |run|
  {
    hide Served;
    if run != [] {
      if run[0].Edit? {
        FilesFromEdits(Do(s, run[0]), Do(u, run[0]), run[1..]);
        assert Edits(run)[0] == run[0] && Edits(run)[1..] == Edits(run[1..]);
      } else {
        FilesFromEdits(Do(s, run[0]), u, run[1..]);
        assert Edits(run) == Edits(run[1..]);
      }
    }
  }

  /** What a file has had, some edit gave it. */
  lemma {:induction false} HadFromEdit(s: State, edits: seq<Event>, file: string, w: string, c: Content)
      returns (k: nat)
    requires AllEdits(edits) && IsRun(s, edits) && (file, w, c) !in s.had && (file, w, c) in After(s, edits).had
    ensures k < |edits| && edits[k] == Edit(file, c, w)
    decreases |edits|
  {
    if edits[0] == Edit(file, c, w) {
      k := 0;
    } else {
      var j := HadFromEdit(Do(s, edits[0]), edits[1..], file, w, c);
      k := j + 1;
    }
  }

  lemma LastEdit(s: State, edits: seq<Event>, last: Event)
    requires AllEdits(edits) && last.Edit?
    ensures IsRun(s, edits + [last])
    ensures last.file in After(s, edits + [last]).files
    ensures After(s, edits + [last]).files[last.file] == File(last.content, last.lastWrite)
  {
    EditsRun(s, edits);
    var t := After(s, edits);
    assert IsRun(t, [last]) && After(t, [last]) == Do(t, last) by { assert [last][1..] == []; }
    RunConcat(s, edits, [last]);
  }

  /** A request for a file that is edited afterwards, but has the same write time in the end. */
  lemma StaleAfterEdits(t: State, first: Event, later: seq<Event>, second: Event)
    requires t.cache == map[] && t.usedNames == {} && AllEdits(later)
    requires first.Request? && first.file in t.files && second.Request?
    requires (second.file, second.algorithm) == (first.file, first.algorithm) && second.newName != first.newName
    requires IsRun(Do(t, first), later) && first.file in After(Do(t, first), later).files
    requires After(Do(t, first), later).files[first.file].lastWrite == t.files[first.file].lastWrite
    requires After(Do(t, first), later).files[first.file].content != t.files[first.file].content
    ensures var v := After(Do(t, first), later); Enabled(v, second) && !ServesCurrent(v, second)
  {
    var u := Do(t, first);
    var info := Info(t.files[first.file].lastWrite, first.newName);
    assert u.cache == With(map[], first.file, first.algorithm, info);
    assert u.disk[first.newName] == Compressed(first.algorithm, t.files[first.file].content);
    EditsRun(u, later);
    var v := After(u, later);
    assert Hit(v.cache, first.file, first.algorithm, info.lastWrite, v.disk.Keys);
  }

  /** A request between two edits that give a file the same write time makes the next one stale. */
  lemma StaleRun(s: State, edits: seq<Event>, k: nat, file: string, algorithm: string)
    requires Initial(s) && AllEdits(edits) && IsRun(s, edits) && k < |edits| && file in After(s, edits).files
    requires edits[k].file == file && edits[k].lastWrite == After(s, edits).files[file].lastWrite
    requires edits[k].content != After(s, edits).files[file].content
    ensures !AlwaysServesCurrent(s, edits, file, algorithm)
  {
    hide Do, ServesCurrent, Edits, Served;
    var before, later := edits[..k + 1], edits[k + 1..];
    var first, second := Request(file, algorithm, "a"), Request(file, algorithm, "b");
    var run := before + [first] + later;
    EditsRun(s, before);
    assert before == edits[..k] + [edits[k]];
    LastEdit(s, edits[..k], edits[k]);
    var t := After(s, before);
    OneEvent(t, first);
    EditsRun(Do(t, first), later);
    RunConcat(s, before, [first]);
    RunConcat(s, before + [first], later);
    EditsOfStale(before, first, later, edits);
    FilesFromEdits(s, s, run);
    StaleAfterEdits(t, first, later, second);
  }

  /** An edit, a request, and an edit that keeps the write time: the next request is answered by the old content. */
  lemma SameTimeIsStale(s: State, file: string, algorithm: string, w: string, c: Content, d: Content)
    requires Initial(s) && c != d
    ensures var run := [Edit(file, c, w), Request(file, algorithm, "a"), Edit(file, d, w)];
      var e := Request(file, algorithm, "b");
      IsRun(s, run) && Enabled(After(s, run), e) && !ServesCurrent(After(s, run), e)
  {
    hide ServesCurrent, Served;
    var edit, first, again := Edit(file, c, w), Request(file, algorithm, "a"), Edit(file, d, w);
    OneEvent(s, edit);
    var t := Do(s, edit);
    OneEvent(t, first);
    OneEvent(Do(t, first), again);
    RunConcat(s, [edit], [first]);
    RunConcat(s, [edit] + [first], [again]);
    assert [edit] + [first] + [again] == [edit, first, again];
    StaleAfterEdits(t, first, [again], Request(file, algorithm, "b"));
  }

  lemma OneEvent(t: State, e: Event)
    requires Enabled(t, e)
    ensures IsRun(t, [e]) && After(t, [e]) == Do(t, e)
  {
    hide Do, Enabled;
    assert [e][1..] == [];
  }

  lemma EditsOfStale(before: seq<Event>, request: Event, later: seq<Event>, edits: seq<Event>)
    requires AllEdits(before) && AllEdits(later) && request.Request? && edits == before + later
    ensures Edits(before + [request] + later) == edits
  {
    EditsOfAll(before);
    EditsOfAll(later);
    assert Edits([request]) == [] by { assert [request][1..] == []; }
    EditsConcat(before, [request]);
    EditsConcat(before + [request], later);
    assert before + [] == before;
  }

  lemma {:induction false} EditsOfAll(edits: seq<Event>)
    requires AllEdits(edits)
    ensures Edits(edits) == edits
  {
    if edits != [] {
      EditsOfAll(edits[1..]);
      assert edits == [edits[0]] + edits[1..];
    }
  }

  /** Over every run with the same edits, a file is served as by recompressing if and only if those edits
      have given it one content only under its current write time. */
  lemma ServesCurrentExactly(s: State, edits: seq<Event>, file: string, algorithm: string)
    requires Initial(s) && AllEdits(edits) && IsRun(s, edits) && file in After(s, edits).files
    ensures TimeTells(After(s, edits), file) <==> AlwaysServesCurrent(s, edits, file, algorithm)
  {
    hide Do, Enabled, Served, ServesCurrent;
    var now := After(s, edits);
    if TimeTells(now, file) {
      forall run, newName | IsRun(s, run) && Edits(run) == edits &&
          Enabled(After(s, run), Request(file, algorithm, newName))
        ensures ServesCurrent(After(s, run), Request(file, algorithm, newName))
      {
        FilesFromEdits(s, s, run);
        ServedIfTold(s, run, Request(file, algorithm, newName));
      }
    } else {
      var c :| (file, now.files[file].lastWrite, c) in now.had && c != now.files[file].content;
      var k := HadFromEdit(s, edits, file, now.files[file].lastWrite, c);
      StaleRun(s, edits, k, file, algorithm);
    }
  }

  lemma ServedIfTold(s: State, run: seq<Event>, e: Event)
    requires Initial(s) && IsRun(s, run) && e.Request? && Enabled(After(s, run), e) && TimeTells(After(s, run), e.file)
    ensures ServesCurrent(After(s, run), e)
  {
    RequestServesCurrent(s, run, e);
  }
}
