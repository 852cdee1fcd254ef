/**
 Reading one file again for each request, compared with loading all files: when the two answer alike, and two changes
 on disk after which they do not.
 */
module HotReload {
  import opened Prelude
  import opened PromptRegistry
  import opened Prompts
  import opened Seqs

  /** A listed file exports the id with the template. */
  ghost predicate Listed(id: string, disk: Disk, template: string) {
    exists name :: name in disk.names && GivesFrom(name, id, disk, template)
  }

  /** A load serves what a listed file exports, and nothing else. */
  lemma LoadGives(id: string, disk: Disk, t: string)
    requires Loaded(disk.names, disk.files).Some?
    ensures LookUp(Loaded(disk.names, disk.files).value, id) == Ok(t) <==> Listed(id, disk, t)
  {
    hide Loaded, Exports;
    var e, docs := Loaded(disk.names, disk.files).value, Parsed(disk.names, disk.files);
    LoadedMirrors(disk.names, disk.files);
    if id in e.prompts {
      assert FromFile(e, id, docs);
      assert GivesFrom(e.sources[id].file, id, disk, e.prompts[id]);
    }
    if Listed(id, disk, t) {
      var name :| name in disk.names && GivesFrom(name, id, disk, t);
      assert Exported(e, id, name);
      assert FromFile(e, id, docs);
    }
  }

  /** The file that is read again, if it is on disk, is among those a load lists. */
  ghost predicate TargetListed(e: Entries, id: string, disk: Disk) {
    forall file :: IsTarget(Some(file), e, id, disk.names) && file in disk.files ==> file in disk.names
  }

  ghost predicate NoneExports(id: string, disk: Disk) {
    forall name :: name in disk.names ==> !ExportedBy(name, disk.files, id)
  }

  lemma NoneListed(id: string, disk: Disk)
    ensures NoneExports(id, disk) <==> forall t :: !Listed(id, disk, t)
  {
    hide Exports;
    forall name | name in disk.names && ExportedBy(name, disk.files, id) ensures exists t :: Listed(id, disk, t) {
      var t := Exports(name, disk.files[name].value).prompts[id];
      assert GivesFrom(name, id, disk, t);
      assert Listed(id, disk, t);
    }
  }

  lemma GivesListed(e: Entries, id: string, disk: Disk, t: string)
    requires TargetListed(e, id, disk) && Gives(e, id, disk, t)
    ensures Listed(id, disk, t)
  {
    hide IsTarget, Exports;
    var file :| IsTarget(Some(file), e, id, disk.names) && GivesFrom(file, id, disk, t);
  }

  /** A request that is not refused, for an id not registered in memory, is answered as a full load of the disk would
      answer it, if and only if the one file that is read again exports the id as the listed files do.  When that file
      is listed or gone, this is so if and only if it exports the id at all, or no listed file does. */
  lemma RequestIsLoad(r: Result<string>, e: Entries, id: string, disk: Disk)
    requires Answers(r, e, id, disk) && !FileRefused(e, id, disk) && !e.Dynamic(id)
    requires Loaded(disk.names, disk.files).Some?
    ensures var all := Loaded(disk.names, disk.files).value;
            && (r == LookUp(all, id) <==> forall t :: Gives(e, id, disk, t) <==> Listed(id, disk, t))
            && (TargetListed(e, id, disk) ==>
                  (r == LookUp(all, id) <==> (exists t :: Gives(e, id, disk, t)) || NoneExports(id, disk)))
  {
    var all := LookUp(Loaded(disk.names, disk.files).value, id);
    NeverInvalid(Loaded(disk.names, disk.files).value, id);
    forall t ensures all == Ok(t) <==> Listed(id, disk, t) {
      LoadGives(id, disk, t);
    }
    NoneListed(id, disk);
    hide LookUp, Loaded, Listed, Gives, FileRefused, NoneExports, TargetListed;
    assert forall t :: r == Ok(t) <==> Gives(e, id, disk, t);
    Outcomes(r, all);
    if TargetListed(e, id, disk) {
      forall t | Gives(e, id, disk, t) ensures Listed(id, disk, t) {
        GivesListed(e, id, disk, t);
      }
    }
  }

  lemma NeverInvalid(e: Entries, id: string)
    ensures !LookUp(e, id).Invalid?
  {
  }

  lemma Outcomes(a: Result<string>, b: Result<string>)
    requires !a.Invalid? && !b.Invalid?
    ensures a == b <==> forall t :: a == Ok(t) <==> b == Ok(t)
  {
    if a.Ok? {
      assert a == Ok(a.value);
    }
    if b.Ok? {
      assert b == Ok(b.value);
    }
  }

  // ----- the target file alone

  /** A known file is read again for an id that is from it. */
  lemma KnownTarget(e: Entries, id: string, disk: Disk)
    requires e.Valid() && id in e.sources
    ensures IsTarget(Some(e.sources[id].file), e, id, disk.names) && !Unlisted(e, id, disk) && !e.Dynamic(id)
  {
  }

  lemma NothingGiven(r: Result<string>, e: Entries, file: string, id: string, disk: Disk)
    requires IsTarget(Some(file), e, id, disk.names) && !Unlisted(e, id, disk) && !e.Dynamic(id)
    requires !RefusedFile(e, file, disk) && !ExportedBy(file, disk.files, id)
    ensures !FileRefused(e, id, disk)
    ensures Answers(r, e, id, disk) ==> r == NotFound
  {
    hide IsTarget, Exports, Replaced;
    RefusedAt(Some(file), e, id, disk);
    forall t ensures !Gives(e, id, disk, t) {
      TargetGives(file, e, id, disk, t);
    }
    hide Gives, FileRefused;
  }

  // ----- an id that moved to another file

  function MovedDisk(): Disk {
    Disk(["a.b"], map["a.b" := Some(PlainFile())])
  }

  lemma MovedLoads()
    ensures Loaded(["a.b"], MovedDisk().files) == Some(Exports("a.b", PlainFile()))
  {
    hide Exports;
    assert ["a.b"][..0] == [];
    NothingLoaded(MovedDisk().files);
    UnionEmpty(Exports("a.b", PlainFile()));
  }

  /** The file a has exported a.b and is gone, and the new file a.b exports it now: the first request does not find it,
      and a full load would serve it. */
  lemma MovedLost(r: Result<string>)
    ensures Loaded(["a"], MaskedFiles()).Some?
    ensures var e, all := Loaded(["a"], MaskedFiles()).value, Loaded(MovedDisk().names, MovedDisk().files);
            && !FileRefused(e, "a.b", MovedDisk()) && all.Some? && LookUp(all.value, "a.b") == Ok("u")
            && (Answers(r, e, "a.b", MovedDisk()) ==> r == NotFound)
  {
    hide Exports, Loaded, Answers, FileRefused, IsTarget, Unlisted;
    MaskedLoads();
    MaskedExports();
    MovedLoads();
    var e := Exports("a", SectionFile());
    KnownTarget(e, "a.b", MovedDisk());
    NothingGiven(r, e, "a", "a.b", MovedDisk());
  }

  // ----- an id added to a file that is not the longest name

  function OneSection(name: string, text: string): Document {
    Document("", [(name, text)], None)
  }

  function TwoSections(name: string, text: string, name2: string, text2: string): Document {
    Document("", [(name, text), (name2, text2)], None)
  }

  lemma OneExports(file: string, name: string, text: string)
    ensures var id := file + "." + name;
            Exports(file, OneSection(name, text)) ==
              Entries(map[id := text], map[id := Source(file, Some(name))], map[])
  {
    assert [(name, text)][..0] == [];
    assert SectionEntries(file, [], None) == EMPTY;
  }

  lemma TwoExports(file: string, name: string, text: string, name2: string, text2: string)
    ensures var id, id2 := file + "." + name, file + "." + name2;
            Exports(file, TwoSections(name, text, name2, text2)) ==
            Entries(map[id := text, id2 := text2],
                    map[id := Source(file, Some(name)), id2 := Source(file, Some(name2))],
                    map[])
  {
    var sections := [(name, text), (name2, text2)];
    assert sections[..1] == [(name, text)];
    OneExports(file, name, text);
  }

  const BOTH := ["a", "a.b"]

  function BeforeFiles(): map<string, Option<Document>> {
    map["a" := Some(OneSection("c", "s")), "a.b" := Some(OneSection("c", "t"))]
  }

  function AddedDisk(): Disk {
    Disk(BOTH, map["a" := Some(TwoSections("b", "v", "c", "s")), "a.b" := Some(OneSection("c", "t"))])
  }

  lemma BothExports()
    ensures Exports("a", OneSection("c", "s")) ==
            Entries(map["a.c" := "s"], map["a.c" := Source("a", Some("c"))], map[])
    ensures Exports("a.b", OneSection("c", "t")) ==
            Entries(map["a.b.c" := "t"], map["a.b.c" := Source("a.b", Some("c"))], map[])
    ensures Exports("a", TwoSections("b", "v", "c", "s")) ==
            Entries(map["a.b" := "v", "a.c" := "s"],
                    map["a.b" := Source("a", Some("b")), "a.c" := Source("a", Some("c"))],
                    map[])
  {
    hide Exports;
    assert "a" + "." + "c" == "a.c" && "a" + "." + "b" == "a.b" && "a.b" + "." + "c" == "a.b.c";
    OneExports("a", "c", "s");
    OneExports("a.b", "c", "t");
    TwoExports("a", "b", "v", "c", "s");
  }

  lemma LoadsTwo(files: map<string, Option<Document>>)
    requires "a" in files && files["a"].Some? && "a.b" in files && files["a.b"].Some?
    requires Exports("a.b", files["a.b"].value).prompts.Keys !! Exports("a", files["a"].value).prompts.Keys
    ensures Loaded(BOTH, files) == Some(Union(Exports("a", files["a"].value), Exports("a.b", files["a.b"].value)))
  {
    hide Exports, Loaded, Union;
    NothingLoaded(files);
    LoadedNext(BOTH, files, 0);
    UnionEmpty(Exports("a", files["a"].value));
    LoadedNext(BOTH, files, 1);
    assert BOTH[..0] == [] && BOTH[..2] == BOTH;
  }

  /** The longest file name there can be for a.b is a.b itself. */
  lemma LongestIsItself(candidates: set<string>)
    requires "a.b" in candidates
    ensures IsSourceFile(Some("a.b"), "a.b", candidates)
  {
  }

  lemma BeforeEntries()
    ensures Loaded(BOTH, BeforeFiles()).Some?
    ensures var e := Loaded(BOTH, BeforeFiles()).value;
            && e.prompts == map["a.c" := "s", "a.b.c" := "t"]
            && e.sources == map["a.c" := Source("a", Some("c")), "a.b.c" := Source("a.b", Some("c"))]
  {
    hide Exports, Loaded;
    BothExports();
    assert "a.c" != "a.b.c";
    LoadsTwo(BeforeFiles());
  }

  lemma AddedLoads()
    ensures Loaded(BOTH, AddedDisk().files).Some? && LookUp(Loaded(BOTH, AddedDisk().files).value, "a.b") == Ok("v")
  {
    hide Exports, Loaded;
    BothExports();
    assert "a.c" != "a.b.c" && "a.b" != "a.b.c";
    LoadsTwo(AddedDisk().files);
  }

  lemma AddedTarget(e: Entries)
    requires e.prompts == map["a.c" := "s", "a.b.c" := "t"]
    requires e.sources == map["a.c" := Source("a", Some("c")), "a.b.c" := Source("a.b", Some("c"))]
    ensures IsTarget(Some("a.b"), e, "a.b", BOTH) && !Unlisted(e, "a.b", AddedDisk()) && !e.Dynamic("a.b")
    ensures !RefusedFile(e, "a.b", AddedDisk()) && !ExportedBy("a.b", AddedDisk().files, "a.b")
  {
    hide Exports, IsSourceFile;
    BothExports();
    assert "a.b" != "a.c" && "a.b" != "a.b.c" && "a.b" in BOTH;
    var candidates := (set k | k in e.sources :: e.sources[k].file) + (set name | name in BOTH);
    assert BOTH[1] == "a.b" && "a.b" in candidates;
    LongestIsItself(candidates);
    DistinctNames();
  }

  lemma DistinctNames()
    ensures NoRepeats(BOTH) && "a.b" != "a.c" && "a.b" != "a.b.c"
  {
    assert "a" != "a.b";
  }

  lemma AddedRereads(before: Registry, after: Registry, ok: bool)
    requires Mirrors(before.entries, before.docs) && before.docs == Parsed(BOTH, BeforeFiles())
    requires IsTarget(Some("a.b"), before.entries, "a.b", BOTH) && !Unlisted(before.entries, "a.b", AddedDisk())
    requires !RefusedFile(before.entries, "a.b", AddedDisk())
    requires IsReread(before, "a.b", AddedDisk(), after, ok)
    ensures after == before
  {
    var disk, document := AddedDisk(), OneSection("c", "t");
    hide Mirrors, IsTarget, Unlisted, Exports, Replaced;
    var file :| IsTarget(file, before.entries, "a.b", disk.names) && IsReload(before, file, disk, after, ok);
    TargetUnique(file, Some("a.b"), before.entries, "a.b", disk.names);
    assert disk.files["a.b"] == Some(document);
    assert after == Next(before, Reload("a.b", Some(document)));
    NextMirrors(before, Reload("a.b", Some(document)));
    assert BOTH[1] == "a.b" && "a.b" in before.docs && before.docs["a.b"] == document;
    assert before.docs["a.b" := document] == before.docs;
    assert after.docs == before.docs;
    SameMemory(after.entries, before.entries, before.docs);
  }

  /** The section b is added to the file a while there is a file a.b: that one is read again for a.b, and does not
      export it. No request finds the id, and none changes anything, while a full load would serve it. */
  lemma AddedLost(r: Result<string>, after: Registry, ok: bool)
    ensures Loaded(BOTH, BeforeFiles()).Some?
    ensures var before := Registry(Loaded(BOTH, BeforeFiles()).value, Parsed(BOTH, BeforeFiles()));
            var all := Loaded(AddedDisk().names, AddedDisk().files);
            && !FileRefused(before.entries, "a.b", AddedDisk()) && all.Some? && LookUp(all.value, "a.b") == Ok("v")
            && (Answers(r, before.entries, "a.b", AddedDisk()) ==> r == NotFound)
            && (IsReread(before, "a.b", AddedDisk(), after, ok) ==> after == before)
  {
    hide Exports, Loaded, Answers, FileRefused, IsTarget, Unlisted, IsReread;
    BeforeEntries();
    AddedLoads();
    var e := Loaded(BOTH, BeforeFiles()).value;
    AddedTarget(e);
    NothingGiven(r, e, "a.b", "a.b", AddedDisk());
    if IsReread(Registry(e, Parsed(BOTH, BeforeFiles())), "a.b", AddedDisk(), after, ok) {
      LoadedMirrors(BOTH, BeforeFiles());
      AddedRereads(Registry(e, Parsed(BOTH, BeforeFiles())), after, ok);
    }
  }
}
