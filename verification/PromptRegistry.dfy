/**
 The prompt registry: templates by id, from files that are reloaded one at a time as they are asked for, and from
 registrations in memory that override them.
 */
module PromptRegistry {
  import opened Prelude
  import opened Seqs

  datatype Metadata = Metadata(
    promptId: string,
    kind: string,
    stage: string,
    status: string,
    summary: string,
    output: string,
    variants: seq<string>)

  datatype Source = Source(file: string, section: Option<string>)

  /** A parsed prompt file; no section name occurs twice. */
  datatype Document = Document(template: string, sections: seq<(string, string)>, metadata: Option<Metadata>)

  /** Prompts by id, where each is from, and what is known about it. */
  datatype Entries = Entries(prompts: map<string, string>, sources: map<string, Source>,
                             metadata: map<string, Metadata>)
  {
    /** Prompts registered in memory have no source. */
    predicate Dynamic(id: string) {
      id in prompts && id !in sources
    }

    ghost predicate Valid() {
      metadata.Keys <= sources.Keys <= prompts.Keys
    }
  }

  const EMPTY := Entries(map[], map[], map[])

  // ----- what a file exports

  /** What one more section adds. */
  function WithSection(e: Entries, file: string, section: (string, string), metadata: Option<Metadata>): Entries {
    var id := file + "." + section.0;
    Entries(e.prompts[id := section.1], e.sources[id := Source(file, Some(section.0))],
            if metadata == None then e.metadata else e.metadata[id := metadata.value])
  }

  function SectionEntries(file: string, sections: seq<(string, string)>, metadata: Option<Metadata>): Entries {
    if sections == [] then EMPTY
    else
      var init, last := sections[..|sections| - 1], sections[|sections| - 1];
      WithSection(SectionEntries(file, init, metadata), file, last, metadata)
  }

  function Exports(file: string, document: Document): Entries {
    if document.sections != [] then SectionEntries(file, document.sections, document.metadata)
    else Entries(map[file := document.template], map[file := Source(file, None)],
                 if document.metadata == None then map[] else map[file := document.metadata.value])
  }

  /** Every export names its file, and only what is exported has metadata. */
  ghost predicate OfFile(e: Entries, file: string) {
    && e.Valid() && e.prompts.Keys == e.sources.Keys
    && forall id :: id in e.sources ==> e.sources[id].file == file
  }

  lemma {:induction false} SectionsOfFile(file: string, sections: seq<(string, string)>, metadata: Option<Metadata>)
    ensures OfFile(SectionEntries(file, sections, metadata), file)
  {
    if sections != [] {
      SectionsOfFile(file, sections[..|sections| - 1], metadata);
    }
  }

  lemma ExportsOfFile(file: string, document: Document)
    ensures OfFile(Exports(file, document), file)
  {
    SectionsOfFile(file, document.sections, document.metadata);
  }

  /** No section is named twice. */
  ghost predicate DistinctSections(document: Document) {
    forall i, j :: 0 <= i < j < |document.sections| ==> document.sections[i].0 != document.sections[j].0
  }

  /** What the id of a section is, and what it serves. */
  ghost predicate Holds(e: Entries, file: string, section: (string, string), metadata: Option<Metadata>) {
    var id := file + "." + section.0;
    && id in e.prompts && id in e.sources
    && e.prompts[id] == section.1 && e.sources[id] == Source(file, Some(section.0))
    && (if metadata == None then id !in e.metadata else id in e.metadata && e.metadata[id] == metadata.value)
  }

  lemma SectionIds(file: string, a: string, b: string)
    ensures file + "." + a == file + "." + b <==> a == b
  {
    assert (file + "." + a)[|file| + 1..] == a && (file + "." + b)[|file| + 1..] == b;
  }

  lemma SectionsNext(file: string, sections: seq<(string, string)>, n: nat, metadata: Option<Metadata>)
    requires n < |sections|
    ensures SectionEntries(file, sections[..n + 1], metadata) ==
            WithSection(SectionEntries(file, sections[..n], metadata), file, sections[n], metadata)
  {
    assert sections[..n + 1][..n] == sections[..n];
  }

  /** Another section does not touch it. */
  lemma StillHolds(e: Entries, file: string, section: (string, string), metadata: Option<Metadata>,
                   other: (string, string))
    requires Holds(e, file, section, metadata) && section.0 != other.0
    ensures Holds(WithSection(e, file, other, metadata), file, section, metadata)
  {
    SectionIds(file, section.0, other.0);
  }

  lemma SectionHolds(e: Entries, file: string, section: (string, string), metadata: Option<Metadata>)
    requires metadata == None ==> e.metadata == map[]
    ensures Holds(WithSection(e, file, section, metadata), file, section, metadata)
    ensures forall id :: id in WithSection(e, file, section, metadata).prompts ==>
              id in e.prompts || id == file + "." + section.0
  {
  }

  /** A file with sections exports each under the file's name and its own, and nothing else. */
  lemma {:induction false} SectionEntriesAre(file: string, document: Document, n: nat)
    requires DistinctSections(document) && n <= |document.sections|
    ensures var e := SectionEntries(file, document.sections[..n], document.metadata);
            && (forall k :: 0 <= k < n ==> Holds(e, file, document.sections[k], document.metadata))
            && (forall id :: id in e.prompts ==> exists k :: 0 <= k < n && id == file + "." + document.sections[k].0)
  {
    hide SectionEntries, Holds, WithSection;
    if n == 0 {
      NoSections(file, document);
    } else {
      var sections, metadata := document.sections, document.metadata;
      var before := SectionEntries(file, sections[..n - 1], metadata);
      SectionEntriesAre(file, document, n - 1);
      SectionsNext(file, sections, n - 1, metadata);
      MetadataOnlyOfExports(file, sections[..n - 1], metadata);
      SectionHolds(before, file, sections[n - 1], metadata);
      forall k | 0 <= k < n - 1
        ensures Holds(WithSection(before, file, sections[n - 1], metadata), file, sections[k], metadata)
      {
        StillHolds(before, file, sections[k], metadata, sections[n - 1]);
      }
    }
  }

  lemma NoSections(file: string, document: Document)
    ensures SectionEntries(file, document.sections[..0], document.metadata) == EMPTY
  {
  }

  lemma {:induction false} MetadataOnlyOfExports(file: string, sections: seq<(string, string)>,
                                                 metadata: Option<Metadata>)
    ensures metadata == None ==> SectionEntries(file, sections, metadata).metadata == map[]
  {
    if sections != [] {
      MetadataOnlyOfExports(file, sections[..|sections| - 1], metadata);
    }
  }

  lemma ExportsAre(file: string, document: Document)
    requires DistinctSections(document)
    ensures var e := Exports(file, document);
            if document.sections == [] then
              e.prompts == map[file := document.template] && e.sources == map[file := Source(file, None)]
              && e.metadata == (if document.metadata == None then map[] else map[file := document.metadata.value])
            else
              && (forall k :: 0 <= k < |document.sections| ==> Holds(e, file, document.sections[k], document.metadata))
              && (forall id :: id in e.prompts ==>
                  exists k :: 0 <= k < |document.sections| && id == file + "." + document.sections[k].0)
  {
    hide Holds;
    SectionEntriesAre(file, document, |document.sections|);
    assert document.sections[..|document.sections|] == document.sections;
  }

  // ----- one file replaced

  function Without<T>(m: map<string, T>, ids: set<string>): map<string, T> {
    map id | id in m && id !in ids :: m[id]
  }

  function Drop(e: Entries, ids: set<string>): Entries {
    Entries(Without(e.prompts, ids), Without(e.sources, ids), Without(e.metadata, ids))
  }

  function Union(a: Entries, b: Entries): Entries {
    Entries(a.prompts + b.prompts, a.sources + b.sources, a.metadata + b.metadata)
  }

  function Own(e: Entries, file: string): set<string> {
    set id | id in e.sources && e.sources[id].file == file
  }

  function Overridden(e: Entries, exports: Entries): set<string> {
    set id | id in exports.prompts && e.Dynamic(id)
  }

  /** Another file already exports one of the ids. */
  predicate Conflicts(e: Entries, file: string, exports: Entries) {
    exists id :: id in exports.prompts && id in e.sources && e.sources[id].file != file
  }

  /** The file's entries replaced by its exports, but for those registered in memory; None for an id conflict. */
  function Replaced(e: Entries, file: string, exports: Entries): Option<Entries> {
    if Conflicts(e, file, exports) then None
    else Some(Union(Drop(e, Own(e, file)), Drop(exports, Overridden(e, exports))))
  }

  // ----- mirroring files

  /** `e` holds the exports of every file of `docs`, and prompts registered in memory, which come first. */
  ghost predicate Mirrors(e: Entries, docs: map<string, Document>) {
    && e.Valid()
    && (forall id :: id in e.sources ==> FromFile(e, id, docs))
    && (forall file, id :: file in docs && id in Exports(file, docs[file]).prompts ==> Exported(e, id, file))
  }

  /** The entry is its file's export, in every part. */
  ghost predicate FromFile(e: Entries, id: string, docs: map<string, Document>)
    requires e.Valid() && id in e.sources
  {
    var file := e.sources[id].file;
    file in docs &&
    var exports := Exports(file, docs[file]);
    && id in exports.prompts && id in exports.sources
    && e.prompts[id] == exports.prompts[id] && e.sources[id] == exports.sources[id]
    && (id in e.metadata <==> id in exports.metadata)
    && (id in e.metadata ==> e.metadata[id] == exports.metadata[id])
  }

  ghost predicate Exported(e: Entries, id: string, file: string) {
    id in e.prompts && (id in e.sources ==> e.sources[id].file == file)
  }

  /** A new source is the file's export; any other is as before. */
  lemma ReplacedSource(e: Entries, file: string, exports: Entries, id: string)
    requires e.Valid() && OfFile(exports, file) && Replaced(e, file, exports).Some?
    ensures var r := Replaced(e, file, exports).value;
            && r.Valid()
            && (id in r.sources <==>
                (id in e.sources && e.sources[id].file != file) || (id in exports.sources && !e.Dynamic(id)))
            && (id in r.sources && r.sources[id].file == file ==>
                  && id in exports.sources && r.sources[id] == exports.sources[id]
                     && r.prompts[id] == exports.prompts[id]
                  && (id in r.metadata <==> id in exports.metadata)
                  && (id in r.metadata ==> r.metadata[id] == exports.metadata[id]))
            && (id in r.sources && r.sources[id].file != file ==>
                  && id in e.sources && r.sources[id] == e.sources[id] && r.prompts[id] == e.prompts[id]
                  && (id in r.metadata <==> id in e.metadata)
                  && (id in r.metadata ==> r.metadata[id] == e.metadata[id]))
            && (e.Dynamic(id) ==> r.Dynamic(id) && r.prompts[id] == e.prompts[id])
            && (id in r.prompts <==> id in r.sources || e.Dynamic(id))
  {
  }

  /** Replacing a file's entries mirrors its new contents, and everything else as before. */
  lemma ReplacedMirrors(e: Entries, docs: map<string, Document>, file: string, document: Document)
    requires Mirrors(e, docs) && Replaced(e, file, Exports(file, document)).Some?
    ensures Mirrors(Replaced(e, file, Exports(file, document)).value, docs[file := document])
  {
    hide Exports, Replaced;
    ExportsOfFile(file, document);
    var exports := Exports(file, document);
    var r, docs' := Replaced(e, file, exports).value, docs[file := document];
    ReplacedSource(e, file, exports, "");
    forall id | id in r.sources ensures FromFile(r, id, docs') {
      ReplacedSource(e, file, exports, id);
      if r.sources[id].file != file {
        assert FromFile(e, id, docs);
      }
    }
    forall f, id | f in docs' && id in Exports(f, docs'[f]).prompts ensures Exported(r, id, f) {
      ReplacedSource(e, file, exports, id);
      NoConflict(e, file, exports, id);
      if f != file {
        assert Exported(e, id, f);
      }
    }
  }

  lemma NoConflict(e: Entries, file: string, exports: Entries, id: string)
    requires Replaced(e, file, exports).Some?
    ensures id in exports.prompts && id in e.sources ==> e.sources[id].file == file
  {
  }

  lemma RemovalAllowed(e: Entries, file: string)
    ensures Replaced(e, file, EMPTY).Some?
  {
  }

  /** A file that is gone leaves nothing behind. */
  lemma RemovedMirrors(e: Entries, docs: map<string, Document>, file: string)
    requires Mirrors(e, docs)
    ensures Replaced(e, file, EMPTY).Some?
    ensures Mirrors(Replaced(e, file, EMPTY).value, docs - {file})
  {
    hide Exports, Replaced;
    RemovalAllowed(e, file);
    var r, docs' := Replaced(e, file, EMPTY).value, docs - {file};
    ReplacedSource(e, file, EMPTY, "");
    forall id | id in r.sources ensures FromFile(r, id, docs') {
      ReplacedSource(e, file, EMPTY, id);
      assert FromFile(e, id, docs);
    }
    forall f, id | f in docs' && id in Exports(f, docs'[f]).prompts ensures Exported(r, id, f) {
      ReplacedSource(e, file, EMPTY, id);
      assert Exported(e, id, f);
    }
  }

  /** `base` with prompts registered over it. */
  function Overlaid(base: Entries, registered: map<string, string>): Entries {
    Entries(base.prompts + registered, base.sources - registered.Keys, base.metadata - registered.Keys)
  }

  lemma OverlaidOne(e: Entries, id: string, template: string)
    ensures Overlaid(e, map[id := template]) == Entries(e.prompts[id := template], e.sources - {id}, e.metadata - {id})
  {
  }

  lemma OverlaidSource(e: Entries, registered: map<string, string>, id: string)
    requires e.Valid()
    ensures var r := Overlaid(e, registered);
            && r.Valid()
            && (id in r.prompts <==> id in e.prompts || id in registered)
            && (id in r.sources <==> id in e.sources && id !in registered)
            && (id in r.sources ==>
                  && r.sources[id] == e.sources[id] && r.prompts[id] == e.prompts[id]
                  && (id in r.metadata <==> id in e.metadata)
                     && (id in r.metadata ==> r.metadata[id] == e.metadata[id]))
  {
  }

  lemma OverlaidMirrors(e: Entries, docs: map<string, Document>, registered: map<string, string>)
    requires Mirrors(e, docs)
    ensures Mirrors(Overlaid(e, registered), docs)
  {
    hide Exports, Overlaid;
    var r := Overlaid(e, registered);
    OverlaidSource(e, registered, "");
    forall id | id in r.sources ensures FromFile(r, id, docs) {
      OverlaidSource(e, registered, id);
      assert FromFile(e, id, docs);
    }
    forall f, id | f in docs && id in Exports(f, docs[f]).prompts ensures Exported(r, id, f) {
      OverlaidSource(e, registered, id);
      assert Exported(e, id, f);
    }
  }

  /** The registry as a load of the files would leave it: entries that mirror the same files and have the same prompts
      in memory are the same. */
  lemma MirrorIsUnique(a: Entries, b: Entries, docs: map<string, Document>)
    requires Mirrors(a, docs) && Mirrors(b, docs)
    requires forall id :: a.Dynamic(id) <==> b.Dynamic(id)
    requires forall id :: a.Dynamic(id) && b.Dynamic(id) ==> a.prompts[id] == b.prompts[id]
    ensures a == b
  {
    hide Exports, Mirrors;
    MirrorsValid(a, docs);
    MirrorsValid(b, docs);
    forall id ensures SameAt(a, b, id) {
      SourceIn(a, b, docs, id);
      SourceIn(b, a, docs, id);
      assert a.Dynamic(id) <==> b.Dynamic(id);
      if id in a.sources {
        SameFile(a, b, docs, id);
      }
    }
    SameEverywhere(a, b);
  }

  /** The two have the same entry, or none, for the id. */
  ghost predicate SameAt(a: Entries, b: Entries, id: string) {
    && (id in a.prompts <==> id in b.prompts) && (id in a.prompts && id in b.prompts ==> a.prompts[id] == b.prompts[id])
    && (id in a.sources <==> id in b.sources) && (id in a.sources && id in b.sources ==> a.sources[id] == b.sources[id])
    && (id in a.metadata <==> id in b.metadata)
       && (id in a.metadata && id in b.metadata ==> a.metadata[id] == b.metadata[id])
  }

  lemma SameEverywhere(a: Entries, b: Entries)
    requires forall id :: SameAt(a, b, id)
    ensures a == b
  {
    forall id ensures id in a.prompts <==> id in b.prompts {
      assert SameAt(a, b, id);
    }
    forall id ensures id in a.sources <==> id in b.sources {
      assert SameAt(a, b, id);
    }
    forall id ensures id in a.metadata <==> id in b.metadata {
      assert SameAt(a, b, id);
    }
    assert a.prompts == b.prompts by {
      forall id | id in a.prompts ensures a.prompts[id] == b.prompts[id] {
        assert SameAt(a, b, id);
      }
    }
    assert a.sources == b.sources by {
      forall id | id in a.sources ensures a.sources[id] == b.sources[id] {
        assert SameAt(a, b, id);
      }
    }
    assert a.metadata == b.metadata by {
      forall id | id in a.metadata ensures a.metadata[id] == b.metadata[id] {
        assert SameAt(a, b, id);
      }
    }
  }

  lemma SourceIn(a: Entries, b: Entries, docs: map<string, Document>, id: string)
    requires Mirrors(a, docs) && Mirrors(b, docs) && forall x :: a.Dynamic(x) <==> b.Dynamic(x)
    ensures id in a.sources ==> id in b.sources
  {
    if id in a.sources {
      assert FromFile(a, id, docs) && !a.Dynamic(id);
      assert Exported(b, id, a.sources[id].file);
    }
  }

  lemma SameFile(a: Entries, b: Entries, docs: map<string, Document>, id: string)
    requires Mirrors(a, docs) && Mirrors(b, docs) && id in a.sources && id in b.sources
    ensures a.sources[id].file == b.sources[id].file
    ensures FromFile(a, id, docs) && FromFile(b, id, docs)
  {
    assert FromFile(a, id, docs);
    assert Exported(b, id, a.sources[id].file);
  }

  // ----- loading everything

  /** A load of the files in order; None when one cannot be parsed or two export the same id. */
  function Loaded(names: seq<string>, files: map<string, Option<Document>>): Option<Entries> {
    if names == [] then Some(EMPTY)
    else
      var before, file := Loaded(names[..|names| - 1], files), names[|names| - 1];
      if before == None || file !in files || files[file] == None then None
      else
        var exports := Exports(file, files[file].value);
        if exports.prompts.Keys !! before.value.prompts.Keys then Some(Union(before.value, exports)) else None
  }

  /** The files that could be parsed, by name. */
  function Parsed(names: seq<string>, files: map<string, Option<Document>>): map<string, Document> {
    map name | name in names && name in files && files[name].Some? :: files[name].value
  }

  lemma {:induction false} LoadedMirrors(names: seq<string>, files: map<string, Option<Document>>)
    requires Loaded(names, files).Some?
    ensures var e := Loaded(names, files).value;
            Mirrors(e, Parsed(names, files)) && e.prompts.Keys == e.sources.Keys
  {
    hide Exports;
    if names != [] {
      var init, file := names[..|names| - 1], names[|names| - 1];
      assert names == init + [file];
      LoadedMirrors(init, files);
      ExportsOfFile(file, files[file].value);
      UnionMirrors(Loaded(init, files).value, Parsed(init, files), file, files[file].value);
      assert Parsed(names, files) == Parsed(init, files)[file := files[file].value];
    }
  }

  lemma UnionSource(e: Entries, exports: Entries, id: string)
    requires e.Valid() && exports.Valid() && e.prompts.Keys == e.sources.Keys
             && exports.prompts.Keys == exports.sources.Keys
    requires exports.prompts.Keys !! e.prompts.Keys
    ensures var r := Union(e, exports);
            && r.Valid()
            && (id in r.sources <==> id in r.prompts) && (id in r.sources <==> id in e.sources || id in exports.sources)
            && (id in e.sources ==>
                  && r.sources[id] == e.sources[id] && r.prompts[id] == e.prompts[id]
                  && (id in r.metadata <==> id in e.metadata)
                     && (id in r.metadata ==> r.metadata[id] == e.metadata[id]))
            && (id in exports.sources ==>
                  && r.sources[id] == exports.sources[id] && r.prompts[id] == exports.prompts[id]
                  && (id in r.metadata <==> id in exports.metadata)
                     && (id in r.metadata ==> r.metadata[id] == exports.metadata[id]))
  {
  }

  lemma UnionMirrors(e: Entries, docs: map<string, Document>, file: string, document: Document)
    requires Mirrors(e, docs) && e.prompts.Keys == e.sources.Keys
    requires Exports(file, document).prompts.Keys !! e.prompts.Keys
    requires file in docs ==> docs[file] == document
    ensures Mirrors(Union(e, Exports(file, document)), docs[file := document])
  {
    hide Exports, Union;
    ExportsOfFile(file, document);
    var exports := Exports(file, document);
    var r, docs' := Union(e, exports), docs[file := document];
    UnionSource(e, exports, "");
    forall id | id in r.sources ensures FromFile(r, id, docs') {
      UnionSource(e, exports, id);
      if id in e.sources {
        assert FromFile(e, id, docs);
      }
    }
    forall f, id | f in docs' && id in Exports(f, docs'[f]).prompts ensures Exported(r, id, f) {
      UnionSource(e, exports, id);
      if f in docs {
        assert Exported(e, id, f);
      }
    }
  }

  // ----- runs of registrations and reloads

  /** A prompt registered in memory, or a file found changed: None when it is gone. */
  datatype Event = Register(id: string, template: string) | Reload(file: string, document: Option<Document>)

  /** A registry and the file contents it was last given. */
  datatype Registry = Registry(entries: Entries, docs: map<string, Document>)

  function Next(r: Registry, e: Event): Registry {
    match e
    case Register(id, template) => Registry(Overlaid(r.entries, map[id := template]), r.docs)
    case Reload(file, None) =>
      var next := Replaced(r.entries, file, EMPTY);
      if next == None then r else Registry(next.value, r.docs - {file})
    case Reload(file, Some(document)) =>
      var next := Replaced(r.entries, file, Exports(file, document));
      if next == None then r else Registry(next.value, r.docs[file := document])
  }

  function After(r: Registry, events: seq<Event>): Registry {
    if events == [] then r else Next(After(r, events[..|events| - 1]), events[|events| - 1])
  }

  /** The last template registered under each id. */
  function Registrations(events: seq<Event>): map<string, string> {
    if events == [] then map[]
    else
      var before, last := Registrations(events[..|events| - 1]), events[|events| - 1];
      if last.Register? then before[last.id := last.template] else before
  }

  function InMemory(e: Entries): map<string, string> {
    map id | id in e.prompts && id !in e.sources :: e.prompts[id]
  }

  lemma ReplacedInMemory(e: Entries, file: string, exports: Entries)
    requires e.Valid() && OfFile(exports, file) && Replaced(e, file, exports).Some?
    ensures InMemory(Replaced(e, file, exports).value) == InMemory(e)
  {
    hide Replaced;
    var r := Replaced(e, file, exports).value;
    forall id ensures id in InMemory(r) <==> id in InMemory(e) {
      ReplacedSource(e, file, exports, id);
    }
    forall id | id in InMemory(e) ensures InMemory(r)[id] == InMemory(e)[id] {
      ReplacedSource(e, file, exports, id);
    }
  }

  lemma NextMirrors(r: Registry, event: Event)
    requires Mirrors(r.entries, r.docs)
    ensures Mirrors(Next(r, event).entries, Next(r, event).docs)
    ensures InMemory(Next(r, event).entries) ==
            if event.Register? then InMemory(r.entries)[event.id := event.template] else InMemory(r.entries)
  {
    hide Exports, Mirrors;
    match event
    case Register(id, template) =>
      OverlaidMirrors(r.entries, r.docs, map[id := template]);
    case Reload(file, None) =>
      RemovedMirrors(r.entries, r.docs, file);
      MirrorsValid(r.entries, r.docs);
      ReplacedInMemory(r.entries, file, EMPTY);
    case Reload(file, Some(document)) =>
      if Replaced(r.entries, file, Exports(file, document)).Some? {
        ReplacedMirrors(r.entries, r.docs, file, document);
        MirrorsValid(r.entries, r.docs);
        ExportsOfFile(file, document);
        ReplacedInMemory(r.entries, file, Exports(file, document));
      }
  }

  lemma MirrorsValid(e: Entries, docs: map<string, Document>)
    requires Mirrors(e, docs)
    ensures e.Valid()
  {
  }

  lemma {:induction false} AfterMirrors(r: Registry, events: seq<Event>)
    requires Mirrors(r.entries, r.docs)
    ensures Mirrors(After(r, events).entries, After(r, events).docs)
    ensures InMemory(After(r, events).entries) == InMemory(r.entries) + Registrations(events)
  {
    hide Mirrors, Next;
    if events != [] {
      AfterMirrors(r, events[..|events| - 1]);
      NextMirrors(After(r, events[..|events| - 1]), events[|events| - 1]);
    }
  }

  // ----- hot reload and a fresh load

  /** The file is there, can be parsed, and exports the id. */
  predicate ExportedBy(name: string, files: map<string, Option<Document>>, id: string) {
    name in files && files[name].Some? && id in Exports(name, files[name].value).prompts
  }

  predicate Readable(names: seq<string>, files: map<string, Option<Document>>) {
    forall i :: 0 <= i < |names| ==> names[i] in files && files[names[i]].Some?
  }

  /** Two of the listed files export the id. */
  ghost predicate ClashOf(names: seq<string>, files: map<string, Option<Document>>, id: string) {
    exists i, j :: 0 <= i < j < |names| && ExportedBy(names[i], files, id) && ExportedBy(names[j], files, id)
  }

  lemma {:induction false} LoadedHas(names: seq<string>, files: map<string, Option<Document>>, id: string)
    requires Loaded(names, files).Some?
    ensures id in Loaded(names, files).value.prompts <==>
              exists i :: 0 <= i < |names| && ExportedBy(names[i], files, id)
  {
    hide Exports;
    if names != [] {
      var init, file := names[..|names| - 1], names[|names| - 1];
      LoadedHas(init, files, id);
      if exists i :: 0 <= i < |init| && ExportedBy(init[i], files, id) {
        var i :| 0 <= i < |init| && ExportedBy(init[i], files, id);
        assert names[i] == init[i];
      }
      if exists i :: 0 <= i < |names| && ExportedBy(names[i], files, id) {
        var i :| 0 <= i < |names| && ExportedBy(names[i], files, id);
        assert i < |init| ==> init[i] == names[i];
      }
      assert ExportedBy(names[|init|], files, id) <==> id in Exports(file, files[file].value).prompts;
    }
  }

  lemma ClashInit(names: seq<string>, files: map<string, Option<Document>>, id: string)
    requires names != [] && ClashOf(names[..|names| - 1], files, id)
    ensures ClashOf(names, files, id)
  {
    var init := names[..|names| - 1];
    var i, j :| 0 <= i < j < |init| && ExportedBy(init[i], files, id) && ExportedBy(init[j], files, id);
    assert names[i] == init[i] && names[j] == init[j];
  }

  /** A load that fails shows a file that cannot be read, or an id that two files export. */
  lemma {:induction false} LoadFails(names: seq<string>, files: map<string, Option<Document>>) returns (id: string)
    requires Loaded(names, files) == None
    ensures !Readable(names, files) || ClashOf(names, files, id)
  {
    hide Exports;
    id := "";
    var init, file := names[..|names| - 1], names[|names| - 1];
    if Loaded(init, files) == None {
      id := LoadFails(init, files);
      if Readable(init, files) {
        ClashInit(names, files, id);
      } else {
        var i :| 0 <= i < |init| && !(init[i] in files && files[init[i]].Some?);
        assert names[i] == init[i];
      }
    } else if file in files && files[file].Some? {
      var before, exports := Loaded(init, files).value, Exports(file, files[file].value);
      id :| id in exports.prompts && id in before.prompts;
      LoadedHas(init, files, id);
      var i :| 0 <= i < |init| && ExportedBy(init[i], files, id);
      assert ExportedBy(names[i], files, id) && ExportedBy(names[|init|], files, id);
    }
  }

  /** A load that succeeds has read every file, and no id is exported twice. */
  lemma {:induction false} LoadSucceeds(names: seq<string>, files: map<string, Option<Document>>)
    requires Loaded(names, files).Some?
    ensures Readable(names, files) && forall id :: !ClashOf(names, files, id)
  {
    hide Exports;
    if names != [] {
      var init, file := names[..|names| - 1], names[|names| - 1];
      LoadSucceeds(init, files);
      forall i | 0 <= i < |names| ensures names[i] in files && files[names[i]].Some? {
        assert i < |init| ==> names[i] == init[i];
      }
      forall id, i, j | 0 <= i < j < |names| && ExportedBy(names[j], files, id)
        ensures !ExportedBy(names[i], files, id)
      {
        assert names[i] == init[i];
        if j < |init| {
          assert names[j] == init[j];
          assert !ClashOf(init, files, id);
        } else {
          LoadedHas(init, files, id);
        }
      }
    }
  }

  /** A load is refused exactly when some file cannot be read or some id is exported by two files. */
  lemma LoadedExactly(names: seq<string>, files: map<string, Option<Document>>)
    ensures Loaded(names, files) == None <==> !Readable(names, files) || exists id :: ClashOf(names, files, id)
  {
    hide Loaded, ClashOf, Readable;
    if Loaded(names, files) == None {
      var id := LoadFails(names, files);
    } else {
      LoadSucceeds(names, files);
    }
  }

  /** Replacing a file's entries is refused exactly when another file exports one of its ids and the id is not
      registered in memory. */
  lemma ReplacedExactly(e: Entries, docs: map<string, Document>, file: string, document: Document)
    requires Mirrors(e, docs)
    ensures Replaced(e, file, Exports(file, document)) == None <==>
            exists f, id :: f in docs && f != file && id in Exports(f, docs[f]).prompts
                            && id in Exports(file, document).prompts && !e.Dynamic(id)
  {
    hide Exports;
    var exports := Exports(file, document);
    if Conflicts(e, file, exports) {
      var id :| id in exports.prompts && id in e.sources && e.sources[id].file != file;
      assert FromFile(e, id, docs);
      var f := e.sources[id].file;
      assert f in docs && f != file && id in Exports(f, docs[f]).prompts;
    }
    forall f, id | f in docs && f != file && id in Exports(f, docs[f]).prompts && id in exports.prompts
      && !e.Dynamic(id)
      ensures Conflicts(e, file, exports)
    {
      assert Exported(e, id, f);
      assert id in exports.prompts && id in e.sources && e.sources[id].file != file;
    }
  }

  /** An id that two different files export is registered in memory, or there would be no mirror of both. */
  lemma ClashIsRegistered(e: Entries, docs: map<string, Document>, f: string, g: string, id: string)
    requires Mirrors(e, docs) && f in docs && g in docs && f != g
    requires id in Exports(f, docs[f]).prompts && id in Exports(g, docs[g]).prompts
    ensures e.Dynamic(id)
  {
    hide Exports;
    assert Exported(e, id, f) && Exported(e, id, g);
  }

  /** Every id serves what was registered under it last, or else what its file exports. */
  ghost predicate Serving(e: Entries, docs: map<string, Document>, registered: map<string, string>) {
    && (forall id :: id in e.prompts <==>
          id in registered || exists file :: file in docs && id in Exports(file, docs[file]).prompts)
    && (forall id :: id in registered ==> e.Dynamic(id) && e.prompts[id] == registered[id])
    && (forall file, id :: file in docs && id in Exports(file, docs[file]).prompts && id !in registered ==>
          ServedFrom(e, id, Exports(file, docs[file])))
  }

  ghost predicate ServedFrom(e: Entries, id: string, exports: Entries) {
    && id in e.prompts && id in e.sources && id in exports.prompts && id in exports.sources
    && e.prompts[id] == exports.prompts[id] && e.sources[id] == exports.sources[id]
    && (id in e.metadata <==> id in exports.metadata)
    && (id in e.metadata && id in exports.metadata ==> e.metadata[id] == exports.metadata[id])
  }

  lemma MirrorHolds(e: Entries, docs: map<string, Document>, id: string)
    requires Mirrors(e, docs)
    ensures id in e.prompts <==>
              id in InMemory(e) || exists file :: file in docs && id in Exports(file, docs[file]).prompts
  {
    hide Exports;
    if id in e.sources {
      assert FromFile(e, id, docs);
    }
    if exists file :: file in docs && id in Exports(file, docs[file]).prompts {
      var file :| file in docs && id in Exports(file, docs[file]).prompts;
      assert Exported(e, id, file);
    }
  }

  lemma MirrorServedFrom(e: Entries, docs: map<string, Document>, file: string, id: string)
    requires Mirrors(e, docs) && file in docs && id in Exports(file, docs[file]).prompts && id !in InMemory(e)
    ensures ServedFrom(e, id, Exports(file, docs[file]))
  {
    hide Exports;
    assert Exported(e, id, file);
    assert FromFile(e, id, docs);
  }

  lemma MirrorServes(e: Entries, docs: map<string, Document>, registered: map<string, string>)
    requires Mirrors(e, docs) && InMemory(e) == registered
    ensures Serving(e, docs, registered)
  {
    hide Exports, Mirrors, ServedFrom;
    forall id ensures id in e.prompts <==>
                id in registered || exists file :: file in docs && id in Exports(file, docs[file]).prompts
    {
      MirrorHolds(e, docs, id);
    }
    forall file, id | file in docs && id in Exports(file, docs[file]).prompts && id !in registered
      ensures ServedFrom(e, id, Exports(file, docs[file]))
    {
      MirrorServedFrom(e, docs, file, id);
    }
    forall id | id in registered ensures e.Dynamic(id) && e.prompts[id] == registered[id] {
      assert id in InMemory(e);
    }
  }

  /** The registry after some events on what was loaded. */
  function Reached(names: seq<string>, files: map<string, Option<Document>>, events: seq<Event>): Registry
    requires Loaded(names, files).Some?
  {
    After(Registry(Loaded(names, files).value, Parsed(names, files)), events)
  }

  lemma ReachedMirrors(names: seq<string>, files: map<string, Option<Document>>, events: seq<Event>)
    requires Loaded(names, files).Some?
    ensures var r := Reached(names, files, events);
            Mirrors(r.entries, r.docs) && InMemory(r.entries) == Registrations(events)
  {
    hide Mirrors, Loaded, Parsed, After;
    LoadedMirrors(names, files);
    AfterMirrors(Registry(Loaded(names, files).value, Parsed(names, files)), events);
    assert InMemory(Loaded(names, files).value) == map[];
  }

  /** Where a fresh load of the same files succeeds, it gives the same registry but for what is registered. */
  lemma MirrorIsLoad(e: Entries, registered: map<string, string>, names: seq<string>,
                     files: map<string, Option<Document>>)
    requires Mirrors(e, Parsed(names, files)) && InMemory(e) == registered && Loaded(names, files).Some?
    ensures e == Overlaid(Loaded(names, files).value, registered)
  {
    hide Mirrors, Loaded, Parsed;
    LoadedMirrors(names, files);
    var base := Loaded(names, files).value;
    var over := Overlaid(base, registered);
    OverlaidMirrors(base, Parsed(names, files), registered);
    forall id ensures e.Dynamic(id) <==> over.Dynamic(id) {
      assert e.Dynamic(id) <==> id in InMemory(e);
    }
    forall id | e.Dynamic(id) ensures e.prompts[id] == over.prompts[id] {
      assert e.prompts[id] == InMemory(e)[id];
    }
    MirrorIsUnique(e, over, Parsed(names, files));
  }

  /** Two of the listed files, by different names, export an id that is registered in memory. */
  ghost predicate Masked(names: seq<string>, files: map<string, Option<Document>>, registered: map<string, string>) {
    exists id :: id in registered && ClashOf(names, files, id)
  }

  lemma ClashNames(names: seq<string>, files: map<string, Option<Document>>, id: string) returns (f: string, g: string)
    requires NoRepeats(names) && ClashOf(names, files, id)
    ensures f != g && f in Parsed(names, files) && g in Parsed(names, files)
    ensures id in Exports(f, Parsed(names, files)[f]).prompts && id in Exports(g, Parsed(names, files)[g]).prompts
  {
    hide Exports;
    var i, j :| 0 <= i < j < |names| && ExportedBy(names[i], files, id) && ExportedBy(names[j], files, id);
    f, g := names[i], names[j];
  }

  lemma ClashMasked(e: Entries, registered: map<string, string>, names: seq<string>,
                    files: map<string, Option<Document>>, id: string)
    requires Mirrors(e, Parsed(names, files)) && InMemory(e) == registered && NoRepeats(names)
             && ClashOf(names, files, id)
    ensures id in registered
  {
    hide Mirrors, Parsed, Exports, ClashOf;
    var f, g := ClashNames(names, files, id);
    ClashIsRegistered(e, Parsed(names, files), f, g, id);
    assert id in InMemory(e);
  }

  /** The file as last read exports the id. */
  predicate ExportsIn(docs: map<string, Document>, file: string, id: string) {
    file in docs && id in Exports(file, docs[file]).prompts
  }

  /** Both readings of the file export the id, and alike, or neither does. */
  ghost predicate SameExport(a: map<string, Document>, b: map<string, Document>, file: string, id: string) {
    && (ExportsIn(a, file, id) <==> ExportsIn(b, file, id))
    && (ExportsIn(a, file, id) && ExportsIn(b, file, id) ==> SameAt(Exports(file, a[file]), Exports(file, b[file]), id))
  }

  /** The two export the same, ids registered in memory apart. */
  ghost predicate SameExports(a: map<string, Document>, b: map<string, Document>, registered: map<string, string>) {
    forall file, id :: id !in registered ==> SameExport(a, b, file, id)
  }

  lemma MirrorExport(e: Entries, a: map<string, Document>, b: map<string, Document>, file: string, id: string)
    requires Mirrors(e, a) && Mirrors(e, b) && id !in InMemory(e) && ExportsIn(a, file, id)
    ensures ExportsIn(b, file, id) && SameAt(Exports(file, a[file]), Exports(file, b[file]), id)
  {
    hide Exports;
    assert Exported(e, id, file);
    assert FromFile(e, id, a) && FromFile(e, id, b);
  }

  lemma SameFromFile(e: Entries, a: map<string, Document>, b: map<string, Document>, id: string)
    requires e.Valid() && id in e.sources && FromFile(e, id, a) && SameExport(a, b, e.sources[id].file, id)
    ensures FromFile(e, id, b)
  {
    hide Exports;
  }

  /** Entries that mirror one reading of the files mirror another exactly when the two export the same. */
  lemma MirrorsOther(e: Entries, a: map<string, Document>, b: map<string, Document>)
    requires Mirrors(e, a)
    ensures Mirrors(e, b) <==> SameExports(a, b, InMemory(e))
  {
    hide Exports, FromFile, SameExport;
    if Mirrors(e, b) {
      forall file, id | id !in InMemory(e) ensures SameExport(a, b, file, id) {
        ExportSame(e, a, b, file, id);
      }
    }
    if SameExports(a, b, InMemory(e)) {
      forall id | id in e.sources ensures FromFile(e, id, b) {
        assert SameExport(a, b, e.sources[id].file, id);
        SameFromFile(e, a, b, id);
      }
      forall file, id | file in b && id in Exports(file, b[file]).prompts ensures Exported(e, id, file) {
        if id !in InMemory(e) {
          assert SameExport(a, b, file, id);
          ExportsBoth(a, b, file, id);
        }
      }
    }
  }

  lemma ExportSame(e: Entries, a: map<string, Document>, b: map<string, Document>, file: string, id: string)
    requires Mirrors(e, a) && Mirrors(e, b) && id !in InMemory(e)
    ensures SameExport(a, b, file, id)
  {
    hide Mirrors, Exports, InMemory;
    if ExportsIn(a, file, id) {
      MirrorExport(e, a, b, file, id);
    }
    if ExportsIn(b, file, id) {
      MirrorExport(e, b, a, file, id);
    }
  }

  lemma ExportsBoth(a: map<string, Document>, b: map<string, Document>, file: string, id: string)
    requires SameExport(a, b, file, id) && ExportsIn(b, file, id)
    ensures file in a && id in Exports(file, a[file]).prompts
  {
  }

  /** Entries that mirror what was last read are what a load would leave, with the prompts in memory on top, exactly
      when the files loaded export what was last read. */
  lemma MirrorIsLoadExactly(e: Entries, docs: map<string, Document>, registered: map<string, string>,
                            names: seq<string>, files: map<string, Option<Document>>)
    requires Mirrors(e, docs) && InMemory(e) == registered && Loaded(names, files).Some?
    ensures e == Overlaid(Loaded(names, files).value, registered) <==>
              SameExports(docs, Parsed(names, files), registered)
  {
    hide Mirrors, Loaded, Parsed, Overlaid, SameExports;
    MirrorsOther(e, docs, Parsed(names, files));
    if Mirrors(e, Parsed(names, files)) {
      MirrorIsLoad(e, registered, names, files);
    }
    LoadedMirrors(names, files);
    OverlaidMirrors(Loaded(names, files).value, Parsed(names, files), registered);
  }

  lemma SameDocuments(docs: map<string, Document>, registered: map<string, string>)
    ensures SameExports(docs, docs, registered)
  {
    hide Exports;
  }

  lemma ExportsSomething(file: string, document: Document) returns (id: string)
    ensures id in Exports(file, document).prompts
  {
    if document.sections == [] {
      id := file;
    } else {
      id := file + "." + document.sections[|document.sections| - 1].0;
    }
  }

  /** A name listed twice is a clash. */
  lemma RepeatClashes(names: seq<string>, files: map<string, Option<Document>>)
    requires Readable(names, files) && !NoRepeats(names)
    ensures exists id :: ClashOf(names, files, id)
  {
    hide Exports;
    var i, j :| 0 <= i < j < |names| && names[i] == names[j];
    var id := ExportsSomething(names[i], files[names[i]].value);
    assert ExportedBy(names[i], files, id) && ExportedBy(names[j], files, id);
    assert ClashOf(names, files, id);
  }

  /** Of files a registry was given, a load is refused exactly when one cannot be read, a name is listed twice, or two
      export an id that is registered. */
  lemma LoadMasked(e: Entries, registered: map<string, string>, names: seq<string>,
                   files: map<string, Option<Document>>)
    requires Mirrors(e, Parsed(names, files)) && InMemory(e) == registered
    ensures Loaded(names, files) == None <==>
              !Readable(names, files) || !NoRepeats(names) || Masked(names, files, registered)
  {
    hide Mirrors, Parsed, Loaded, ClashOf, NoRepeats, Readable, InMemory;
    LoadedExactly(names, files);
    if Readable(names, files) && !NoRepeats(names) {
      RepeatClashes(names, files);
    }
    if NoRepeats(names) {
      forall id | ClashOf(names, files, id) ensures id in registered {
        ClashMasked(e, registered, names, files, id);
      }
    }
  }

  /** Hot reload and a full load: a registry that got where it is by registrations and reloads of single files, in any
      order, some of them refused, serves what was registered last, and else what the files as last read export. It is
      what a full load would leave, with the registrations on top, if and only if the files loaded export what was last
      read. When it was given all of them, the load is refused if and only if one cannot be read, a name is listed
      twice, or two export an id that is registered, which reloading had let pass. */
  lemma HotReloadIsLoad(names: seq<string>, files: map<string, Option<Document>>, events: seq<Event>,
                        names': seq<string>, files': map<string, Option<Document>>)
    requires Loaded(names, files).Some?
    ensures var r, registered := Reached(names, files, events), Registrations(events);
            && Serving(r.entries, r.docs, registered)
            && (Loaded(names', files').Some? ==>
                  (r.entries == Overlaid(Loaded(names', files').value, registered) <==>
                   SameExports(r.docs, Parsed(names', files'), registered)))
            && (r.docs == Parsed(names', files') ==>
                  && SameExports(r.docs, Parsed(names', files'), registered)
                  && (Loaded(names', files') == None <==>
                      !Readable(names', files') || !NoRepeats(names') || Masked(names', files', registered)))
  {
    hide Mirrors, Serving, Loaded, Parsed, Reached, NoRepeats, Readable, Overlaid, SameExports, Masked;
    var r, registered := Reached(names, files, events), Registrations(events);
    ReachedMirrors(names, files, events);
    MirrorServes(r.entries, r.docs, registered);
    SameDocuments(r.docs, registered);
    if Loaded(names', files').Some? {
      MirrorIsLoadExactly(r.entries, r.docs, registered, names', files');
    }
    if r.docs == Parsed(names', files') {
      LoadMasked(r.entries, registered, names', files');
    }
  }

  // ----- a masked clash

  const MASKED_NAMES := ["a", "a.b"]

  function SectionFile(): Document {
    Document("", [("b", "s")], None)
  }

  function PlainFile(): Document {
    Document("u", [], None)
  }

  function MaskedFiles(): map<string, Option<Document>> {
    map["a" := Some(SectionFile()), "a.b" := Some(PlainFile())]
  }

  lemma MaskedExports()
    ensures Exports("a", SectionFile()) == Entries(map["a.b" := "s"], map["a.b" := Source("a", Some("b"))], map[])
    ensures Exports("a.b", PlainFile()) == Entries(map["a.b" := "u"], map["a.b" := Source("a.b", None)], map[])
  {
    assert SectionFile().sections[..0] == [];
    assert "a" + "." + "b" == "a.b";
  }

  lemma UnionEmpty(e: Entries)
    ensures Union(EMPTY, e) == e
  {
    assert EMPTY.prompts + e.prompts == e.prompts && EMPTY.sources + e.sources == e.sources;
    assert EMPTY.metadata + e.metadata == e.metadata;
  }

  lemma MaskedLoads()
    ensures Loaded(["a"], MaskedFiles()) == Some(Exports("a", SectionFile()))
    ensures Loaded(MASKED_NAMES, MaskedFiles()) == None
  {
    hide Exports;
    MaskedExports();
    var files := MaskedFiles();
    assert ["a"][..0] == [] && MASKED_NAMES[..1] == ["a"];
    assert Loaded([], files) == Some(EMPTY);
    UnionEmpty(Exports("a", SectionFile()));
    assert "a.b" in Exports("a.b", PlainFile()).prompts && "a.b" in Exports("a", SectionFile()).prompts;
  }

  lemma MaskedParsed()
    ensures Parsed(["a"], MaskedFiles()) == map["a" := SectionFile()]
    ensures Parsed(MASKED_NAMES, MaskedFiles()) == map["a" := SectionFile(), "a.b" := PlainFile()]
  {
    assert forall name :: name in MASKED_NAMES <==> name == "a" || name == "a.b";
  }

  lemma TwoEvents(r: Registry, first: Event, second: Event)
    ensures After(r, [first, second]) == Next(Next(r, first), second)
  {
    hide Next;
    assert [first][..0] == [] && [first, second][..1] == [first];
    assert After(r, [first]) == Next(After(r, []), first);
  }

  lemma RegisteredMasks(e: Entries, id: string, template: string, exports: Entries, file: string)
    requires exports.prompts.Keys == {id}
    ensures Replaced(Overlaid(e, map[id := template]), file, exports).Some?
  {
  }

  /** With the id registered in memory, the second file is reloaded although the first exports the same id; a fresh load
      of both is refused. */
  lemma MaskedClash()
    ensures Loaded(["a"], MaskedFiles()).Some?
    ensures var r := Reached(["a"], MaskedFiles(), [Register("a.b", "t"), Reload("a.b", Some(PlainFile()))]);
            r.docs == Parsed(MASKED_NAMES, MaskedFiles())
    ensures Loaded(MASKED_NAMES, MaskedFiles()) == None
  {
    hide Exports, Loaded, Parsed, Replaced, After;
    MaskedExports();
    MaskedLoads();
    MaskedParsed();
    var e, exports := Exports("a", SectionFile()), Exports("a.b", PlainFile());
    assert exports.prompts.Keys == {"a.b"};
    RegisteredMasks(e, "a.b", "t", exports, "a.b");
    TwoEvents(Registry(e, Parsed(["a"], MaskedFiles())), Register("a.b", "t"), Reload("a.b", Some(PlainFile())));
  }
}
