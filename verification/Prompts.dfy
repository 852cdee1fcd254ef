/** The prompt manager: prompts by name or alias, reloaded from their files as they are asked for. */
module Prompts {
  import opened Prelude
  import opened PromptRegistry
  import opened Seqs

  /** The prompt files there are, listed and by name; None for one that cannot be parsed. */
  datatype Disk = Disk(names: seq<string>, files: map<string, Option<Document>>)

  // ----- aliases

  /** Where `n` alias steps lead. */
  function Chain(aliases: map<string, string>, name: string, n: nat): string {
    if n == 0 then name
    else
      var before := Chain(aliases, name, n - 1);
      if before in aliases then aliases[before] else before
  }

  /** The first name on the chain that is no alias, if there is one among the first `n`. */
  ghost predicate EndsAt(aliases: map<string, string>, name: string, n: nat) {
    && Chain(aliases, name, n) !in aliases
    && forall k :: 0 <= k < n ==> Chain(aliases, name, k) in aliases
  }

  ghost predicate Resolves(aliases: map<string, string>, name: string, r: Option<string>) {
    match r
    case Some(id) => exists n :: EndsAt(aliases, name, n) && Chain(aliases, name, n) == id
    case None => forall n: nat :: !EndsAt(aliases, name, n)
  }

  /** Once a chain comes back to where it was, it goes round for ever. */
  lemma {:induction false} ChainRepeats(aliases: map<string, string>, name: string, i: nat, j: nat, n: nat)
    requires i < j && Chain(aliases, name, i) == Chain(aliases, name, j)
    requires forall k :: 0 <= k < j ==> Chain(aliases, name, k) in aliases
    ensures exists k :: 0 <= k < j && Chain(aliases, name, n) == Chain(aliases, name, k)
  {
    if n < j {
    } else {
      ChainRepeats(aliases, name, i, j, n - 1);
      var k :| 0 <= k < j && Chain(aliases, name, n - 1) == Chain(aliases, name, k);
      assert Chain(aliases, name, n) == Chain(aliases, name, k + 1);
      if k + 1 == j {
        assert Chain(aliases, name, n) == Chain(aliases, name, i);
      }
    }
  }

  lemma GoesRound(aliases: map<string, string>, name: string, i: nat, j: nat)
    requires i < j && Chain(aliases, name, i) == Chain(aliases, name, j)
    requires forall k :: 0 <= k < j ==> Chain(aliases, name, k) in aliases
    ensures Resolves(aliases, name, None)
  {
    forall m: nat ensures !EndsAt(aliases, name, m) {
      ChainRepeats(aliases, name, i, j, m);
    }
  }

  /** A name resolves in one way only, and what it resolves to resolves to itself. */
  lemma ResolvesOnce(aliases: map<string, string>, name: string, r: Option<string>, r': Option<string>)
    requires Resolves(aliases, name, r) && Resolves(aliases, name, r')
    ensures r == r'
    ensures r.Some? ==> r.value !in aliases && Resolves(aliases, r.value, r)
  {
    if r.Some? && r'.Some? {
      var n :| EndsAt(aliases, name, n) && Chain(aliases, name, n) == r.value;
      assert EndsAt(aliases, r.value, 0) && Chain(aliases, r.value, 0) == r.value;
      var n' :| EndsAt(aliases, name, n') && Chain(aliases, name, n') == r'.value;
      assert n == n';
    }
  }

  // ----- the manager

  datatype Result<T> = Ok(value: T) | NotFound | Invalid

  predicate IsFileOf(file: string, id: string) {
    id == file || file + "." <= id
  }

  /** The id is the file's name, or starts with it and a dot. */
  ghost predicate Heads(file: string, id: string) {
    |file| <= |id| && (forall k :: 0 <= k < |file| ==> file[k] == id[k]) && (|file| < |id| ==> id[|file|] == '.')
  }

  lemma HeadsIs(file: string, id: string)
    ensures IsFileOf(file, id) <==> Heads(file, id)
  {
    if file + "." <= id {
      assert id[..|file| + 1] == file + ".";
      assert forall k :: 0 <= k < |file| ==> id[..|file| + 1][k] == id[k];
      assert id[..|file| + 1][|file|] == '.';
    }
    if Heads(file, id) && |file| < |id| {
      assert id[..|file| + 1] == file + ".";
    }
  }

  /** The file a prompt not yet known is looked for in: the longest name that is the id or a dotted beginning of it. */
  ghost predicate IsSourceFile(r: Option<string>, id: string, candidates: set<string>) {
    match r
    case None => forall file :: file in candidates ==> !Heads(file, id)
    case Some(f) => f in candidates && Heads(f, id) && forall file :: file in candidates && Heads(file, id) ==>
      |file| <= |f|
  }

  /** There is one such file at most. */
  lemma SourceFileUnique(r: Option<string>, r': Option<string>, id: string, candidates: set<string>)
    requires IsSourceFile(r, id, candidates) && IsSourceFile(r', id, candidates)
    ensures r == r'
  {
    if r.Some? && r'.Some? {
      assert r.value == id[..|r.value|] && r'.value == id[..|r'.value|];
    }
  }

  /** The names on the chain before its n-th are aliases, and are the ones visited. */
  ghost predicate Passed(aliases: map<string, string>, name: string, n: nat, visited: set<string>) {
    && (forall k :: 0 <= k < n ==> Chain(aliases, name, k) in aliases)
    && (forall id :: id in visited ==> exists k :: 0 <= k < n && Chain(aliases, name, k) == id)
  }

  lemma PassedNext(aliases: map<string, string>, name: string, n: nat, visited: set<string>)
    requires Passed(aliases, name, n, visited) && Chain(aliases, name, n) in aliases
    ensures Passed(aliases, name, n + 1, visited + {Chain(aliases, name, n)})
    ensures Chain(aliases, name, n + 1) == aliases[Chain(aliases, name, n)]
  {
    ChainNext(aliases, name, n);
    hide Chain;
    var next := Chain(aliases, name, n);
    forall id | id in visited + {next} ensures exists k :: 0 <= k < n + 1 && Chain(aliases, name, k) == id {
      if id in visited {
        var k :| 0 <= k < n && Chain(aliases, name, k) == id;
        assert k < n + 1 && Chain(aliases, name, k) == id;
      }
    }
  }

  lemma NonePassed(aliases: map<string, string>, name: string)
    ensures Passed(aliases, name, 0, {}) && Chain(aliases, name, 0) == name
  {
  }

  lemma PassedEnds(aliases: map<string, string>, name: string, n: nat, visited: set<string>)
    requires Passed(aliases, name, n, visited) && Chain(aliases, name, n) !in aliases
    ensures Resolves(aliases, name, Some(Chain(aliases, name, n)))
  {
    assert EndsAt(aliases, name, n);
  }

  lemma ChainNext(aliases: map<string, string>, name: string, n: nat)
    requires Chain(aliases, name, n) in aliases
    ensures Chain(aliases, name, n + 1) == aliases[Chain(aliases, name, n)]
  {
  }

  lemma PassedAgain(aliases: map<string, string>, name: string, n: nat, visited: set<string>)
    requires Passed(aliases, name, n, visited) && Chain(aliases, name, n) in visited
    ensures Resolves(aliases, name, None)
  {
    hide Chain, Resolves;
    var i :| 0 <= i < n && Chain(aliases, name, i) == Chain(aliases, name, n);
    GoesRound(aliases, name, i, n);
  }

  lemma OneLess(all: set<string>, visited: set<string>, next: string)
    requires next in all && next !in visited
    ensures |all - (visited + {next})| < |all - visited|
  {
    var rest := all - (visited + {next});
    assert all - visited == rest + {next};
  }

  class PromptManager {
    var prompts: map<string, string>
    var sources: map<string, Source>
    var metadata: map<string, Metadata>
    const aliases: map<string, string>
    var contexts: map<string, map<string, string>>
    var cacheRevision: int
    var loaded: bool
    /** The file contents the registry was last given. */
    ghost var docs: map<string, Document>

    function Current(): Entries
      reads this
    {
      Entries(prompts, sources, metadata)
    }

    ghost predicate Valid()
      reads this
    {
      Mirrors(Current(), docs)
    }

    constructor (aliases: map<string, string>)
      ensures Valid() && Current() == EMPTY && this.aliases == aliases && contexts == map[] && !loaded
    {
      prompts, sources, metadata := map[], map[], map[];
      this.aliases := aliases;
      contexts := map[];
      cacheRevision := 0;
      loaded := false;
      docs := map[];
    }

    /** Following aliases ends, or goes round in a circle and is refused. */
    method ResolveName(name: string) returns (r: Option<string>)
      ensures Resolves(aliases, name, r)
    {
      hide *;
      var resolved := name;
      var visited: set<string> := {};
      NonePassed(aliases, name);
      ghost var n: nat := 0;
      while resolved in aliases
        invariant resolved == Chain(aliases, name, n) && visited <= aliases.Keys && Passed(aliases, name, n, visited)
        decreases |aliases.Keys - visited|
      {
        if resolved in visited {
          PassedAgain(aliases, name, n, visited);
          return None;
        }
        OneLess(aliases.Keys, visited, resolved);
        PassedNext(aliases, name, n, visited);
        visited := visited + {resolved};
        resolved := aliases[resolved];
        n := n + 1;
      }
      PassedEnds(aliases, name, n, visited);
      r := Some(resolved);
    }

    method RegisterPrompt(name: string, template: string) returns (r: Option<string>)
      requires Valid()
      modifies this`prompts, this`sources, this`metadata
      ensures Valid() && Resolves(aliases, name, r)
      ensures Current() == if r == None then old(Current()) else Overlaid(old(Current()), map[r.value := template])
    {
      hide Mirrors, Resolves;
      r := ResolveName(name);
      if r.Some? {
        OverlaidMirrors(Current(), docs, map[r.value := template]);
        OverlaidOne(Current(), r.value, template);
        prompts, sources, metadata := prompts[r.value := template], sources - {r.value}, metadata - {r.value};
      }
    }

    /** A file's entries are replaced at once, or, when another file exports one of the ids, not at all. */
    method ReplaceFileEntries(file: string, exports: Entries) returns (ok: bool)
      requires Current().Valid() && exports.Valid()
      modifies this`prompts, this`sources, this`metadata
      ensures var next := Replaced(old(Current()), file, exports);
              ok == next.Some? && Current() == if ok then next.value else old(Current())
    {
      var overrides := set id | id in exports.prompts && id in prompts && id !in sources;
      var kept := Drop(exports, overrides);
      assert overrides == Overridden(Current(), exports);
      var own := set id | id in sources && sources[id].file == file;
      assert own == Own(Current(), file);
      var duplicates := (prompts.Keys - own) * kept.prompts.Keys;
      if duplicates != {} {
        var id :| id in duplicates;
        assert id in exports.prompts && id in sources && sources[id].file != file;
        return false;
      }
      assert !Conflicts(Current(), file, exports) by {
        forall id | id in exports.prompts && id in sources ensures sources[id].file == file {
          assert id !in duplicates;
        }
      }
      prompts := Without(prompts, own) + kept.prompts;
      sources := Without(sources, own) + kept.sources;
      metadata := Without(metadata, own) + kept.metadata;
      ok := true;
    }

    /** All files, or, when any of them is refused, nothing. */
    method LoadPrompts(disk: Disk, revision: int) returns (ok: bool)
      requires Valid()
      modifies this`prompts, this`sources, this`metadata, this`docs, this`loaded, this`cacheRevision
      ensures Valid()
      ensures ok == Loaded(disk.names, disk.files).Some?
      ensures ok ==> Current() == Loaded(disk.names, disk.files).value && docs == Parsed(disk.names, disk.files)
                     && loaded && cacheRevision == revision
      ensures !ok ==>
                Current() == old(Current()) && docs == old(docs) && loaded == old(loaded)
                  && cacheRevision == old(cacheRevision)
    {
      hide Mirrors, Exports, Loaded, Parsed, Union;
      var all := EMPTY;
      NothingLoaded(disk.files);
      for n := 0 to |disk.names|
        invariant unchanged(this) && Loaded(disk.names[..n], disk.files) == Some(all)
      {
        LoadedNext(disk.names, disk.files, n);
        var file := disk.names[n];
        if file !in disk.files || disk.files[file] == None
           || !(Exports(file, disk.files[file].value).prompts.Keys !! all.prompts.Keys) {
          LoadedStops(disk.names, disk.files, n + 1);
          return false;
        }
        all := Union(all, Exports(file, disk.files[file].value));
      }
      assert disk.names[..|disk.names|] == disk.names;
      LoadedMirrors(disk.names, disk.files);
      prompts, sources, metadata := all.prompts, all.sources, all.metadata;
      docs := Parsed(disk.names, disk.files);
      cacheRevision, loaded := revision, true;
      ok := true;
    }

    /** Everything is loaded again when the revision has changed since the last load. */
    method ReloadIfChanged(disk: Disk, revision: int) returns (ok: bool)
      requires Valid()
      modifies this`prompts, this`sources, this`metadata, this`docs, this`loaded, this`cacheRevision
      ensures Valid()
      ensures ok == !(old(loaded) && revision != old(cacheRevision) && Loaded(disk.names, disk.files) == None)
      ensures if ok && old(loaded) && revision != old(cacheRevision) then
                Current() == Loaded(disk.names, disk.files).value && docs == Parsed(disk.names, disk.files)
                && loaded && cacheRevision == revision
              else
                Current() == old(Current()) && docs == old(docs) && loaded == old(loaded)
                  && cacheRevision == old(cacheRevision)
    {
      hide *;
      ok := true;
      if loaded && revision != cacheRevision {
        ok := LoadPrompts(disk, revision);
      }
    }

    /** The file a prompt might be from; a listing with a name twice is refused. */
    method FindSourceFile(id: string, names: seq<string>) returns (ok: bool, r: Option<string>)
      ensures ok == NoRepeats(names)
      ensures ok ==> IsSourceFile(r, id, (set k | k in sources :: sources[k].file) + (set name | name in names))
    {
      ok := NoRepeats(names);
      if !ok {
        return false, None;
      }
      var rest := (set k | k in sources :: sources[k].file) + (set name | name in names);
      ghost var candidates := rest;
      r := None;
      while rest != {}
        invariant ok && rest <= candidates && IsSourceFile(r, id, candidates - rest)
        decreases |rest|
      {
        var file :| file in rest;
        rest := rest - {file};
        HeadsIs(file, id);
        if IsFileOf(file, id) && (r == None || |file| > |r.value|) {
          r := Some(file);
        }
      }
      assert candidates - rest == candidates;
    }

    /** The prompt's file is read again, and its entries are replaced; a file that is gone leaves nothing, one that is
        refused changes nothing. */
    method ReloadPromptIfChanged(id: string, disk: Disk) returns (ok: bool)
      requires Valid()
      modifies this`prompts, this`sources, this`metadata, this`docs
      ensures Valid() && Fresh(Current(), id, disk, ok) && ok == !FileRefused(old(Current()), id, disk)
      ensures InMemory(Current()) == old(InMemory(Current()))
      ensures IsReread(Registry(old(Current()), old(docs)), id, disk, Registry(Current(), docs), ok)
    {
      hide Mirrors, Exports, Replaced;
      MirrorsValid(Current(), docs);
      ghost var before := Current();
      if id !in sources && id in prompts {
        assert IsTarget(None, before, id, disk.names);
        RefusedAt(None, before, id, disk);
        return true;
      }
      var file: Option<string>;
      if id in sources {
        file := Some(sources[id].file);
      } else {
        var listed;
        listed, file := FindSourceFile(id, disk.names);
        if !listed {
          return false;
        }
      }
      assert IsTarget(file, before, id, disk.names);
      RefusedAt(file, before, id, disk);
      hide IsTarget, FileRefused;
      if file == None {
        return true;
      }
      if file.value !in disk.files {
        RemovedMirrors(before, docs, file.value);
        ReplacedInMemory(before, file.value, EMPTY);
        ReplacedSource(before, file.value, EMPTY, id);
        ok := ReplaceFileEntries(file.value, EMPTY);
        docs := docs - {file.value};
      } else if disk.files[file.value] == None {
        ok := false;
      } else {
        var document := disk.files[file.value].value;
        var exports := Exports(file.value, document);
        ExportsOfFile(file.value, document);
        ok := ReplaceFileEntries(file.value, exports);
        if ok {
          ReplacedMirrors(before, docs, file.value, document);
          ReplacedInMemory(before, file.value, exports);
          ReplacedSource(before, file.value, exports, id);
          docs := docs[file.value := document];
        }
      }
    }

    /** What a prompt's name serves: an override of the chat's own, or a prompt registered in memory, or what the
        prompt's file exports now.  A change of the revision loads everything again. */
    method GetPrompt(name: string, context: Option<string>, disk: Disk, revision: int) returns (r: Result<string>)
      requires Valid()
      modifies this`prompts, this`sources, this`metadata, this`docs, this`loaded, this`cacheRevision
      ensures Valid()
      ensures r.Ok? ==>
                exists id :: Resolves(aliases, name, Some(id))
                  && Serves(Current(), contexts, id, r.value, context, disk)
      ensures r.NotFound? ==>
                exists id :: Resolves(aliases, name, Some(id)) && !HasOwn(contexts, id, context) && id !in prompts
      ensures var stale := old(loaded) && revision != old(cacheRevision);
              exists id: Option<string> ::
                && Resolves(aliases, name, id)
                && IsAnswer(r, old(Current()), old(loaded), stale, id, contexts, context, disk)
                && Leaves(Registry(old(Current()), old(docs)), old(loaded), stale, id, contexts, context, disk,
                          Registry(Current(), docs))
      ensures if old(loaded) && revision != old(cacheRevision) then
                Current() == if Loaded(disk.names, disk.files).Some? then Loaded(disk.names, disk.files).value
                  else old(Current())
              else
                InMemory(Current()) == old(InMemory(Current()))
      ensures old(loaded) ==>
                loaded && cacheRevision == if Loaded(disk.names, disk.files).Some? then revision else old(cacheRevision)
    {
      hide Mirrors, Exports, Resolves, Loaded, Parsed, FileRefused, Fresh, InMemory, IsReread, Answers;
      ghost var stale := loaded && revision != cacheRevision;
      var ok := ReloadIfChanged(disk, revision);
      if !ok {
        ghost var none := SomeResolution(aliases, name);
        return Invalid;
      }
      var id := ResolveName(name);
      if id == None {
        return Invalid;
      }
      if context.Some? && context.value in contexts && id.value in contexts[context.value] {
        return Ok(contexts[context.value][id.value]);
      }
      assert !HasOwn(contexts, id.value, context);
      ok := LoadFirst(disk, revision);
      if !ok {
        return Invalid;
      }
      r := ReadAgain(id.value, disk);
      assert Resolves(aliases, name, Some(id.value));
    }

    /** The prompt's file is read again and the id looked up; after a load of the same files this is what was loaded. */
    method ReadAgain(id: string, disk: Disk) returns (r: Result<string>)
      requires Valid()
      modifies this`prompts, this`sources, this`metadata, this`docs
      ensures Valid() && Answers(r, old(Current()), id, disk) && InMemory(Current()) == old(InMemory(Current()))
      ensures exists ok :: IsReread(Registry(old(Current()), old(docs)), id, disk, Registry(Current(), docs), ok)
      ensures !r.Invalid? ==> r == LookUp(Current(), id) && Fresh(Current(), id, disk, true)
      ensures var all := Loaded(disk.names, disk.files);
              all.Some? && old(Current()) == all.value && old(docs) == Parsed(disk.names, disk.files) ==>
                Current() == all.value && r == LookUp(all.value, id)
    {
      hide Mirrors, Loaded, Parsed, FileRefused, Fresh, InMemory, IsReread, Answers;
      ghost var before := Registry(Current(), docs);
      MirrorsValid(Current(), docs);
      var ok := ReloadPromptIfChanged(id, disk);
      RereadAnswers(before, id, disk, Registry(Current(), docs), ok);
      if Loaded(disk.names, disk.files).Some? && before.entries == Loaded(disk.names, disk.files).value
         && before.docs == Parsed(disk.names, disk.files) {
        ReloadAfterLoad(disk, id);
        ReloadChangesNothing(disk, id, before, Registry(Current(), docs), ok);
      }
      r := if !ok then Invalid else if id in prompts then Ok(prompts[id]) else NotFound;
    }

    /** A manager that has nothing yet loads everything. */
    method LoadFirst(disk: Disk, revision: int) returns (ok: bool)
      requires Valid()
      modifies this`prompts, this`sources, this`metadata, this`docs, this`loaded, this`cacheRevision
      ensures Valid() && InMemory(Current()) == old(InMemory(Current()))
      ensures ok == (old(loaded) || old(prompts) != map[] || Loaded(disk.names, disk.files).Some?)
      ensures if ok && !old(loaded) && old(prompts) == map[] then
                Current() == Loaded(disk.names, disk.files).value && docs == Parsed(disk.names, disk.files)
                && loaded && cacheRevision == revision
              else
                Current() == old(Current()) && docs == old(docs) && loaded == old(loaded)
                  && cacheRevision == old(cacheRevision)
    {
      hide Mirrors, Loaded, Parsed;
      ok := true;
      if !loaded && prompts == map[] {
        ok := LoadPrompts(disk, revision);
        if ok {
          NothingInMemory(old(Current()), disk);
        }
      }
    }

    /** Overrides of one chat; the others keep theirs. */
    method RegisterContextPrompts(context: string, templates: seq<(string, string)>)
      returns (ok: bool, ghost ids: seq<string>)
      modifies this`contexts
      ensures |ids| <= |templates| && forall k :: 0 <= k < |ids| ==> Resolves(aliases, templates[k].0, Some(ids[k]))
      ensures if ok then |ids| == |templates| else |ids| < |templates| && Resolves(aliases, templates[|ids|].0, None)
      ensures contexts == old(contexts)[context := Overrides(if context in old(contexts) then old(contexts)[context]
                                                             else map[], ids, templates)]
    {
      hide Resolves;
      var own := if context in contexts then contexts[context] else map[];
      contexts := contexts[context := own];
      ids := [];
      for n := 0 to |templates|
        invariant |ids| == n && forall k :: 0 <= k < n ==> Resolves(aliases, templates[k].0, Some(ids[k]))
        invariant contexts == old(contexts)[context := Overrides(own, ids, templates)]
      {
        var id := ResolveName(templates[n].0);
        if id == None {
          return false, ids;
        }
        assert (ids + [id.value])[..n] == ids;
        ids := ids + [id.value];
        contexts := contexts[context := contexts[context][id.value := templates[n].1]];
      }
      ok := true;
    }
  }

  /** The file a prompt is read again from, if it is from any or might be. */
  ghost predicate IsTarget(r: Option<string>, e: Entries, id: string, names: seq<string>) {
    if e.Dynamic(id) then r == None
    else if id in e.sources then r == Some(e.sources[id].file)
    else IsSourceFile(r, id, (set k | k in e.sources :: e.sources[k].file) + (set name | name in names))
  }

  /** A file that cannot be parsed is refused; any other is a reload event. */
  ghost predicate IsReload(before: Registry, file: Option<string>, disk: Disk, after: Registry, ok: bool) {
    match file
    case None => ok && after == before
    case Some(f) =>
      if f in disk.files && disk.files[f] == None then !ok && after == before
      else
        var document := if f in disk.files then disk.files[f] else None;
        && after == Next(before, Reload(f, document))
        && ok == Replaced(before.entries, f, if document == None then EMPTY else Exports(f, document.value)).Some?
  }

  /** The file has to be looked for in a listing that has a name twice. */
  predicate Unlisted(e: Entries, id: string, disk: Disk) {
    id !in e.prompts && id !in e.sources && !NoRepeats(disk.names)
  }

  /** The prompt's file, if there is one, is read again; when it cannot be looked for nothing happens. */
  ghost predicate IsReread(before: Registry, id: string, disk: Disk, after: Registry, ok: bool) {
    if Unlisted(before.entries, id, disk) then !ok && after == before
    else exists file :: IsTarget(file, before.entries, id, disk.names) && IsReload(before, file, disk, after, ok)
  }

  /** The file the prompt is read again from cannot be looked for, or cannot be parsed, or exports an id that another
      file has. */
  ghost predicate FileRefused(e: Entries, id: string, disk: Disk) {
    || Unlisted(e, id, disk)
    || exists file :: IsTarget(Some(file), e, id, disk.names) && RefusedFile(e, file, disk)
  }

  ghost predicate RefusedFile(e: Entries, file: string, disk: Disk) {
    file in disk.files && (disk.files[file] == None || Replaced(e, file, Exports(file, disk.files[file].value)) == None)
  }

  /** The chat has its own prompt under the id. */
  predicate HasOwn(contexts: map<string, map<string, string>>, id: string, context: Option<string>) {
    context.Some? && context.value in contexts && id in contexts[context.value]
  }

  /** The id is registered in memory with the template. */
  predicate Held(e: Entries, id: string, template: string) {
    e.Dynamic(id) && e.prompts[id] == template
  }

  /** The file is on disk, can be parsed, and exports the id with the template. */
  predicate GivesFrom(file: string, id: string, disk: Disk, template: string) {
    ExportedBy(file, disk.files, id) && Exports(file, disk.files[file].value).prompts[id] == template
  }

  /** The file the prompt is read again from does. */
  ghost predicate Gives(e: Entries, id: string, disk: Disk, template: string) {
    exists file :: IsTarget(Some(file), e, id, disk.names) && GivesFrom(file, id, disk, template)
  }

  /** The answer for an id the chat has no prompt of its own for, when nothing has to be loaded: what is in memory, or
      else what the one file that is read again exports now. */
  ghost predicate Answers(r: Result<string>, e: Entries, id: string, disk: Disk) {
    && (r.Invalid? <==> FileRefused(e, id, disk))
    && (forall t :: r == Ok(t) <==> !FileRefused(e, id, disk) && (Held(e, id, t) || Gives(e, id, disk, t)))
    && (r.NotFound? <==>
        !FileRefused(e, id, disk) && !e.Dynamic(id) && forall t :: !Gives(e, id, disk, t))
  }

  function LookUp(e: Entries, id: string): Result<string> {
    if id in e.prompts then Ok(e.prompts[id]) else NotFound
  }

  /** The answer to a request for a name that resolves to `id`, on entries `e`. */
  ghost predicate IsAnswer(r: Result<string>, e: Entries, loaded: bool, stale: bool, id: Option<string>,
                           contexts: map<string, map<string, string>>, context: Option<string>, disk: Disk)
  {
    var all := Loaded(disk.names, disk.files);
    if (stale && all == None) || id == None then r == Invalid
    else if HasOwn(contexts, id.value, context) then r == Ok(contexts[context.value][id.value])
    else if stale || (!loaded && e.prompts == map[]) then r == if all == None then Invalid
      else LookUp(all.value, id.value)
    else Answers(r, e, id.value, disk)
  }

  /** What the request leaves: everything loaded, or one file read again, or all as it was. */
  ghost predicate Leaves(before: Registry, loaded: bool, stale: bool, id: Option<string>,
                         contexts: map<string, map<string, string>>, context: Option<string>, disk: Disk,
                         after: Registry)
  {
    var all := Loaded(disk.names, disk.files);
    if stale then after.entries == if all.Some? then all.value else before.entries
    else if id == None || HasOwn(contexts, id.value, context) then after == before
    else if !loaded && before.entries.prompts == map[] then
      after.entries == if all.Some? then all.value else before.entries
    else exists ok :: IsReread(before, id.value, disk, after, ok)
  }

  lemma TargetUnique(file: Option<string>, file': Option<string>, e: Entries, id: string, names: seq<string>)
    requires IsTarget(file, e, id, names) && IsTarget(file', e, id, names)
    ensures file == file'
  {
    hide IsSourceFile;
    if !e.Dynamic(id) && id !in e.sources {
      SourceFileUnique(file, file', id, (set k | k in e.sources :: e.sources[k].file) + (set name | name in names));
    }
  }

  lemma RefusedAt(file: Option<string>, e: Entries, id: string, disk: Disk)
    requires IsTarget(file, e, id, disk.names)
    ensures FileRefused(e, id, disk) <==> Unlisted(e, id, disk) || (file.Some? && RefusedFile(e, file.value, disk))
  {
    hide IsTarget, RefusedFile;
    forall f | IsTarget(Some(f), e, id, disk.names) ensures file == Some(f) {
      TargetUnique(file, Some(f), e, id, disk.names);
    }
  }

  lemma NoTargetGives(e: Entries, id: string, disk: Disk)
    requires IsTarget(None, e, id, disk.names)
    ensures forall t :: !Gives(e, id, disk, t)
  {
    hide IsTarget;
    forall f | IsTarget(Some(f), e, id, disk.names) ensures false {
      TargetUnique(None, Some(f), e, id, disk.names);
    }
  }

  lemma TargetGives(file: string, e: Entries, id: string, disk: Disk, t: string)
    requires IsTarget(Some(file), e, id, disk.names)
    ensures Gives(e, id, disk, t) <==> GivesFrom(file, id, disk, t)
  {
    hide IsTarget, GivesFrom;
    forall f | IsTarget(Some(f), e, id, disk.names) ensures f == file {
      TargetUnique(Some(file), Some(f), e, id, disk.names);
    }
  }

  /** What a file's replacement leaves under an id that was read from it, or was not known. */
  lemma ReplacedLookUp(e: Entries, file: string, exports: Entries, id: string, names: seq<string>)
    requires e.Valid() && OfFile(exports, file) && Replaced(e, file, exports).Some?
             && IsTarget(Some(file), e, id, names)
    ensures LookUp(Replaced(e, file, exports).value, id) == LookUp(exports, id)
  {
    hide Replaced;
    ReplacedSource(e, file, exports, id);
  }

  /** After the reload, looking the id up gives the answer. */
  lemma RereadAnswers(before: Registry, id: string, disk: Disk, after: Registry, ok: bool)
    requires before.entries.Valid() && IsReread(before, id, disk, after, ok)
    ensures Answers(if ok then LookUp(after.entries, id) else Invalid, before.entries, id, disk)
  {
    var e := before.entries;
    if !Unlisted(e, id, disk) {
      var file :| IsTarget(file, e, id, disk.names) && IsReload(before, file, disk, after, ok);
      RefusedAt(file, e, id, disk);
      if file == None {
        NoTargetGives(e, id, disk);
      } else {
        FileAnswers(before, file.value, id, disk, after, ok);
      }
    }
  }

  /** What the target file says, as an answer. */
  ghost function FileSays(e: Entries, file: string, id: string, disk: Disk): Result<string> {
    if RefusedFile(e, file, disk) then Invalid
    else if file in disk.files && disk.files[file].Some? then LookUp(Exports(file, disk.files[file].value), id)
    else NotFound
  }

  lemma SaysGives(e: Entries, file: string, id: string, disk: Disk, t: string)
    requires IsTarget(Some(file), e, id, disk.names) && !RefusedFile(e, file, disk)
    ensures Gives(e, id, disk, t) <==> FileSays(e, file, id, disk) == Ok(t)
  {
    hide IsTarget, Exports, Replaced;
    TargetGives(file, e, id, disk, t);
  }

  lemma SaysAnswers(e: Entries, file: string, id: string, disk: Disk)
    requires !Unlisted(e, id, disk) && IsTarget(Some(file), e, id, disk.names)
    ensures Answers(FileSays(e, file, id, disk), e, id, disk)
  {
    RefusedAt(Some(file), e, id, disk);
    var r := FileSays(e, file, id, disk);
    if !RefusedFile(e, file, disk) {
      forall t ensures Gives(e, id, disk, t) <==> r == Ok(t) {
        SaysGives(e, file, id, disk, t);
      }
    }
    hide Gives, FileRefused, Unlisted, IsSourceFile, RefusedFile, LookUp, Exports;
    if r.Ok? {
      assert Gives(e, id, disk, r.value);
    }
  }

  lemma FileAnswers(before: Registry, file: string, id: string, disk: Disk, after: Registry, ok: bool)
    requires before.entries.Valid() && !Unlisted(before.entries, id, disk)
    requires IsTarget(Some(file), before.entries, id, disk.names) && IsReload(before, Some(file), disk, after, ok)
    ensures Answers(if ok then LookUp(after.entries, id) else Invalid, before.entries, id, disk)
  {
    var e := before.entries;
    SaysAnswers(e, file, id, disk);
    hide Exports, Replaced, Unlisted, Answers, IsTarget;
    if file !in disk.files {
      NothingReplaces(e, file);
      ReplacedLookUp(e, file, EMPTY, id, disk.names);
    } else if disk.files[file].Some? && ok {
      ExportsOfFile(file, disk.files[file].value);
      ReplacedLookUp(e, file, Exports(file, disk.files[file].value), id, disk.names);
    }
  }

  lemma NothingReplaces(e: Entries, file: string)
    ensures Replaced(e, file, EMPTY).Some? && OfFile(EMPTY, file)
  {
    RemovalAllowed(e, file);
  }

  lemma SomeResolution(aliases: map<string, string>, name: string) returns (r: Option<string>)
    ensures Resolves(aliases, name, r)
  {
    hide EndsAt;
    if exists n :: EndsAt(aliases, name, n) {
      var n :| EndsAt(aliases, name, n);
      r := Some(Chain(aliases, name, n));
    } else {
      r := None;
    }
  }

  lemma NothingInMemory(before: Entries, disk: Disk)
    requires before.prompts == map[] && Loaded(disk.names, disk.files).Some?
    ensures InMemory(Loaded(disk.names, disk.files).value) == InMemory(before)
  {
    hide Mirrors, Loaded, Parsed;
    LoadedMirrors(disk.names, disk.files);
  }

  /** A file that has just been loaded is not refused. */
  lemma TargetIsLoaded(disk: Disk, id: string, file: string)
    requires Loaded(disk.names, disk.files).Some?
    requires IsTarget(Some(file), Loaded(disk.names, disk.files).value, id, disk.names)
    ensures file in disk.names && file in disk.files && file in Parsed(disk.names, disk.files)
    ensures disk.files[file] == Some(Parsed(disk.names, disk.files)[file])
  {
    hide Loaded, Exports;
    LoadedMirrors(disk.names, disk.files);
    LoadSucceeds(disk.names, disk.files);
    var e := Loaded(disk.names, disk.files).value;
    forall k | k in e.sources ensures e.sources[k].file in disk.names {
      assert FromFile(e, k, Parsed(disk.names, disk.files));
    }
    assert file in disk.names;
    var i :| 0 <= i < |disk.names| && disk.names[i] == file;
  }

  lemma LoadedOnce(disk: Disk)
    requires Loaded(disk.names, disk.files).Some?
    ensures NoRepeats(disk.names)
  {
    hide Loaded, NoRepeats;
    LoadSucceeds(disk.names, disk.files);
    if !NoRepeats(disk.names) {
      RepeatClashes(disk.names, disk.files);
    }
  }

  lemma ReloadAfterLoad(disk: Disk, id: string)
    requires Loaded(disk.names, disk.files).Some?
    ensures !FileRefused(Loaded(disk.names, disk.files).value, id, disk)
  {
    hide Loaded, Exports, Mirrors, IsTarget, Parsed;
    LoadedOnce(disk);
    var e, docs := Loaded(disk.names, disk.files).value, Parsed(disk.names, disk.files);
    forall file | IsTarget(Some(file), e, id, disk.names) ensures !RefusedFile(e, file, disk) {
      TargetIsLoaded(disk, id, file);
      LoadedMirrors(disk.names, disk.files);
      ReplacedExactly(e, docs, file, docs[file]);
      forall f, x | f in docs && f != file && x in Exports(f, docs[f]).prompts
        ensures x !in Exports(file, docs[file]).prompts
      {
        NoClash(disk, f, file, x);
      }
    }
  }

  lemma NoClash(disk: Disk, f: string, g: string, id: string)
    requires Loaded(disk.names, disk.files).Some?
    requires f != g && f in Parsed(disk.names, disk.files) && g in Parsed(disk.names, disk.files)
    ensures !(id in Exports(f, Parsed(disk.names, disk.files)[f]).prompts
              && id in Exports(g, Parsed(disk.names, disk.files)[g]).prompts)
  {
    hide Loaded, Exports;
    LoadSucceeds(disk.names, disk.files);
    var i :| 0 <= i < |disk.names| && disk.names[i] == f;
    var j :| 0 <= j < |disk.names| && disk.names[j] == g;
    assert !ClashOf(disk.names, disk.files, id);
  }

  /** Reading a file again that has just been loaded changes nothing. */
  lemma ReloadChangesNothing(disk: Disk, id: string, before: Registry, after: Registry, ok: bool)
    requires Loaded(disk.names, disk.files).Some?
    requires before == Registry(Loaded(disk.names, disk.files).value, Parsed(disk.names, disk.files))
    requires Mirrors(after.entries, after.docs) && InMemory(after.entries) == InMemory(before.entries)
    requires IsReread(before, id, disk, after, ok)
    ensures after.entries == before.entries
  {
    LoadedOnce(disk);
    hide Loaded, Mirrors, IsTarget, Parsed, Replaced, Exports;
    var file :| IsTarget(file, before.entries, id, disk.names) && IsReload(before, file, disk, after, ok);
    if file.Some? {
      TargetIsLoaded(disk, id, file.value);
      var document := before.docs[file.value];
      assert disk.files[file.value] == Some(document) && before.docs[file.value := document] == before.docs;
      assert after == Next(before, Reload(file.value, Some(document)));
      assert after.docs == before.docs;
      LoadedMirrors(disk.names, disk.files);
      SameMemory(after.entries, before.entries, before.docs);
    }
  }

  lemma SameMemory(a: Entries, b: Entries, docs: map<string, Document>)
    requires Mirrors(a, docs) && Mirrors(b, docs) && InMemory(a) == InMemory(b)
    ensures a == b
  {
    hide Mirrors;
    forall id ensures a.Dynamic(id) <==> b.Dynamic(id) {
      assert a.Dynamic(id) <==> id in InMemory(a);
      assert b.Dynamic(id) <==> id in InMemory(b);
    }
    forall id | a.Dynamic(id) && b.Dynamic(id) ensures a.prompts[id] == b.prompts[id] {
      assert a.prompts[id] == InMemory(a)[id] && b.prompts[id] == InMemory(b)[id];
    }
    MirrorIsUnique(a, b, docs);
  }

  function Overrides(own: map<string, string>, ids: seq<string>, templates: seq<(string, string)>): map<string, string>
    requires |ids| <= |templates|
  {
    if ids == [] then own
    else Overrides(own, ids[..|ids| - 1], templates)[ids[|ids| - 1] := templates[|ids| - 1].1]
  }

  /** After a reload, a prompt that has a source is what its file exports now. */
  ghost predicate Fresh(e: Entries, id: string, disk: Disk, reloaded: bool) {
    reloaded && id in e.sources && id in e.prompts ==>
      var file := e.sources[id].file;
      && file in disk.files && disk.files[file].Some?
      && id in Exports(file, disk.files[file].value).prompts
      && e.prompts[id] == Exports(file, disk.files[file].value).prompts[id]
  }

  ghost predicate Serves(e: Entries, contexts: map<string, map<string, string>>, id: string, template: string,
                         context: Option<string>, disk: Disk)
  {
    if context.Some? && context.value in contexts && id in contexts[context.value]
    then template == contexts[context.value][id]
    else id in e.prompts && e.prompts[id] == template && Fresh(e, id, disk, true)
  }

  lemma NothingLoaded(files: map<string, Option<Document>>)
    ensures Loaded([], files) == Some(EMPTY)
  {
  }

  lemma LoadedNext(names: seq<string>, files: map<string, Option<Document>>, n: nat)
    requires n < |names| && Loaded(names[..n], files).Some?
    ensures var before, file := Loaded(names[..n], files).value, names[n];
            Loaded(names[..n + 1], files) ==
            if file !in files || files[file] == None
               || !(Exports(file, files[file].value).prompts.Keys !! before.prompts.Keys) then None
            else Some(Union(before, Exports(file, files[file].value)))
  {
    hide Exports, Union;
    assert names[..n + 1][..n] == names[..n];
  }

  lemma {:induction false} LoadedStops(names: seq<string>, files: map<string, Option<Document>>, n: nat)
    requires n <= |names| && Loaded(names[..n], files) == None
    ensures Loaded(names, files) == None
    decreases |names|
  {
    if n < |names| {
      assert names[..|names| - 1][..n] == names[..n];
      LoadedStops(names[..|names| - 1], files, n);
    } else {
      assert names[..n] == names;
    }
  }

  // ----- a prompt that is gone

  const BARE := Disk([], map[])

  lemma PlainName(name: string, r: Option<string>)
    ensures Resolves(map[], name, r) <==> r == Some(name)
  {
    hide Resolves, EndsAt;
    NamesItself(name);
    if Resolves(map[], name, r) {
      ResolvesOnce(map[], name, r, Some(name));
    }
  }

  lemma NamesItself(name: string)
    ensures Resolves(map[], name, Some(name))
  {
    assert EndsAt(map[], name, 0);
  }

  lemma BareLoads()
    ensures Loaded(BARE.names, BARE.files) == Some(EMPTY)
  {
  }

  lemma BareRefusesNothing(e: Entries, id: string)
    ensures !FileRefused(e, id, BARE)
  {
  }

  /** A prompt registered in memory is served, and is no longer found once the revision has changed. */
  method MemoryLost() returns (before: Result<string>, after: Result<string>)
    ensures before == Ok("t") && after == NotFound
  {
    hide Mirrors, Resolves, Loaded, Serves, Fresh, FileRefused, IsReread, Leaves, Gives;
    var manager := new PromptManager(map[]);
    BareLoads();
    var ok := manager.LoadPrompts(BARE, 0);
    var id := manager.RegisterPrompt("p", "t");
    forall r ensures Resolves(map[], "p", r) <==> r == Some("p") {
      PlainName("p", r);
    }
    forall e ensures !FileRefused(e, "p", BARE) {
      BareRefusesNothing(e, "p");
    }
    assert Held(manager.Current(), "p", "t");
    before := manager.GetPrompt("p", None, BARE, 0);
    after := manager.GetPrompt("p", None, BARE, 1);
  }
}
