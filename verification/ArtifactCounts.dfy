/** What a quiet import reports, said of the list of local files at once: each
    count is the number of files of one kind, and the kind of a file is decided by
    the account as it was. */
module ArtifactCounts {
  import opened Options
  import Store = HostedStore
  import opened ArtifactImport

  /** No hosted job reads the description; the store takes no such file; too large
      for it; not there; there with these bytes; there with others. */
  datatype Kind = NoJob | Unfit | TooLarge | New | Same | Changed

  function KindOf(f: LocalFile, objects: map<Key, Bytes>, names: Names): Kind {
    if f.family == Descriptions && f.Key() !in names.descriptionKeys then NoJob
    else if Store.Refusal(f.Key(), |f.bytes|) in {Some(Store.InvalidKey), Some(Store.WrongType)} || f.bytes == [] then Unfit
    else if Store.Refusal(f.Key(), |f.bytes|).Some? then TooLarge
    else if f.Key() !in objects then New
    else if objects[f.Key()] == f.bytes then Same
    else Changed
  }

  /** The files of the kind, of these families. */
  function Of(files: seq<LocalFile>, objects: map<Key, Bytes>, names: Names, kind: Kind, families: set<Family>): nat {
    if files == [] then 0
    else
      var f := files[|files| - 1];
      Of(files[..|files| - 1], objects, names, kind, families)
      + if KindOf(f, objects, names) == kind && f.family in families then 1 else 0
  }

  /** The artifacts now on the account that some job looks for, or that none does. */
  function Named(files: seq<LocalFile>, objects: map<Key, Bytes>, names: Names, named: bool): nat {
    if files == [] then 0
    else
      var f := files[|files| - 1];
      Named(files[..|files| - 1], objects, names, named)
      + if KindOf(f, objects, names) in {New, Same} && f.family != Descriptions && (f.Key() in names.keys) == named
        then 1 else 0
  }

  const ALL: set<Family> := {Resumes, CoverLetters, Answers, Descriptions}

  ghost predicate DistinctKeys(files: seq<LocalFile>) {
    forall i, j :: 0 <= i < j < |files| ==> files[i].Key() != files[j].Key()
  }

  /** The account afterwards: what it held, and each new file. */
  ghost predicate WithTheNew(files: seq<LocalFile>, objects: map<Key, Bytes>, names: Names, after: map<Key, Bytes>) {
    && (forall k :: k in objects ==> k in after && after[k] == objects[k])
    && (forall f :: f in files && KindOf(f, objects, names) == New ==> f.Key() in after && after[f.Key()] == f.bytes)
    && (forall k :: k in after && k !in objects ==>
          exists f :: f in files && KindOf(f, objects, names) == New && f.Key() == k)
  }

  ghost predicate LeftOut(r: Imported, files: seq<LocalFile>, objects: map<Key, Bytes>, names: Names) {
    && r.noHostedJob == Of(files, objects, names, NoJob, ALL)
    && r.other == Of(files, objects, names, Unfit, ALL)
    && r.overLimit == Of(files, objects, names, TooLarge, ALL)
  }

  ghost predicate Differing(r: Imported, files: seq<LocalFile>, objects: map<Key, Bytes>, names: Names) {
    && r.differs == Of(files, objects, names, Changed, ALL - {Descriptions})
    && r.keptNewer == Of(files, objects, names, Changed, {Descriptions})
  }

  ghost predicate FamilyIs(c: FamilyCount, files: seq<LocalFile>, objects: map<Key, Bytes>, names: Names,
                           family: Family) {
    c.copied == Of(files, objects, names, New, {family}) && c.present == Of(files, objects, names, Same, {family})
  }

  ghost predicate SentAndPresent(r: Imported, files: seq<LocalFile>, objects: map<Key, Bytes>, names: Names) {
    && FamilyIs(r.families.resumes, files, objects, names, Resumes)
    && FamilyIs(r.families.coverLetters, files, objects, names, CoverLetters)
    && FamilyIs(r.families.answers, files, objects, names, Answers)
    && FamilyIs(r.families.descriptions, files, objects, names, Descriptions)
    && r.attached == Named(files, objects, names, true) && r.unattached == Named(files, objects, names, false)
  }

  // One more file, whose key is none of the others'.

  lemma OfMore(front: seq<LocalFile>, f: LocalFile, objects: map<Key, Bytes>, names: Names, kind: Kind,
               families: set<Family>)
    ensures Of(front + [f], objects, names, kind, families)
         == Of(front, objects, names, kind, families)
            + if KindOf(f, objects, names) == kind && f.family in families then 1 else 0
  {
    assert (front + [f])[..|front|] == front;
  }

  lemma NamedMore(front: seq<LocalFile>, f: LocalFile, objects: map<Key, Bytes>, names: Names, named: bool)
    ensures Named(front + [f], objects, names, named)
         == Named(front, objects, names, named)
            + if KindOf(f, objects, names) in {New, Same} && f.family != Descriptions && (f.Key() in names.keys) == named
              then 1 else 0
  {
    assert (front + [f])[..|front|] == front;
  }

  /** What the file comes to, by its kind. */
  lemma FateByKind(front: seq<LocalFile>, f: LocalFile, objects: map<Key, Bytes>, names: Names, r: Imported,
                   now: map<Key, Bytes>)
    requires (forall g :: g in front ==> g.Key() != f.Key()) && WithTheNew(front, objects, names, now)
    ensures Fate(r, now, f, names).0 ==
      match KindOf(f, objects, names)
      case NoJob => r.(noHostedJob := r.noHostedJob + 1)
      case Unfit => r.(other := r.other + 1)
      case TooLarge => r.(overLimit := r.overLimit + 1)
      case New => r.AddCopied(f.family).Attach(f, names)
      case Same => r.AddPresent(f.family).Attach(f, names)
      case Changed => r.AddDiffers(f.family)
  {
    assert f.Key() in now <==> f.Key() in objects;
  }

  lemma LeftMore(front: seq<LocalFile>, f: LocalFile, objects: map<Key, Bytes>, names: Names, r: Imported,
                 now: map<Key, Bytes>)
    requires (forall g :: g in front ==> g.Key() != f.Key()) && WithTheNew(front, objects, names, now)
    requires LeftOut(r, front, objects, names)
    ensures LeftOut(Fate(r, now, f, names).0, front + [f], objects, names)
  {
    FateByKind(front, f, objects, names, r, now);
    OfMore(front, f, objects, names, NoJob, ALL);
    OfMore(front, f, objects, names, Unfit, ALL);
    OfMore(front, f, objects, names, TooLarge, ALL);
    assert f.family in ALL;
  }

  lemma DifferingMore(front: seq<LocalFile>, f: LocalFile, objects: map<Key, Bytes>, names: Names, r: Imported,
                      now: map<Key, Bytes>)
    requires (forall g :: g in front ==> g.Key() != f.Key()) && WithTheNew(front, objects, names, now)
    requires Differing(r, front, objects, names)
    ensures Differing(Fate(r, now, f, names).0, front + [f], objects, names)
  {
    FateByKind(front, f, objects, names, r, now);
    OfMore(front, f, objects, names, Changed, ALL - {Descriptions});
    OfMore(front, f, objects, names, Changed, {Descriptions});
  }

  lemma FateOfFamily(front: seq<LocalFile>, f: LocalFile, objects: map<Key, Bytes>, names: Names, r: Imported,
                     now: map<Key, Bytes>, family: Family)
    requires (forall g :: g in front ==> g.Key() != f.Key()) && WithTheNew(front, objects, names, now)
    ensures var c, kind := r.families.Of(family), KindOf(f, objects, names);
      Fate(r, now, f, names).0.families.Of(family)
      == FamilyCount(c.copied + (if kind == New && f.family == family then 1 else 0),
                     c.present + if kind == Same && f.family == family then 1 else 0)
  {
    FateByKind(front, f, objects, names, r, now);
  }

  lemma FamilyMore(front: seq<LocalFile>, f: LocalFile, objects: map<Key, Bytes>, names: Names, r: Imported,
                   now: map<Key, Bytes>, family: Family)
    requires (forall g :: g in front ==> g.Key() != f.Key()) && WithTheNew(front, objects, names, now)
    requires FamilyIs(r.families.Of(family), front, objects, names, family)
    ensures FamilyIs(Fate(r, now, f, names).0.families.Of(family), front + [f], objects, names, family)
  {
    FateOfFamily(front, f, objects, names, r, now, family);
    OfMore(front, f, objects, names, New, {family});
    OfMore(front, f, objects, names, Same, {family});
  }

  lemma NamedInTurn(front: seq<LocalFile>, f: LocalFile, objects: map<Key, Bytes>, names: Names, r: Imported,
                    now: map<Key, Bytes>)
    requires (forall g :: g in front ==> g.Key() != f.Key()) && WithTheNew(front, objects, names, now)
    requires r.attached == Named(front, objects, names, true) && r.unattached == Named(front, objects, names, false)
    ensures var fate := Fate(r, now, f, names).0;
      && fate.attached == Named(front + [f], objects, names, true)
      && fate.unattached == Named(front + [f], objects, names, false)
  {
    FateByKind(front, f, objects, names, r, now);
    NamedMore(front, f, objects, names, true);
    NamedMore(front, f, objects, names, false);
  }

  lemma SentMore(front: seq<LocalFile>, f: LocalFile, objects: map<Key, Bytes>, names: Names, r: Imported,
                 now: map<Key, Bytes>)
    requires (forall g :: g in front ==> g.Key() != f.Key()) && WithTheNew(front, objects, names, now)
    requires SentAndPresent(r, front, objects, names)
    ensures SentAndPresent(Fate(r, now, f, names).0, front + [f], objects, names)
  {
    FamilyMore(front, f, objects, names, r, now, Resumes);
    FamilyMore(front, f, objects, names, r, now, CoverLetters);
    FamilyMore(front, f, objects, names, r, now, Answers);
    FamilyMore(front, f, objects, names, r, now, Descriptions);
    NamedInTurn(front, f, objects, names, r, now);
  }

  lemma WithOneMore(front: seq<LocalFile>, f: LocalFile, objects: map<Key, Bytes>, names: Names, r: Imported,
                    now: map<Key, Bytes>)
    requires forall g :: g in front ==> g.Key() != f.Key()
    requires WithTheNew(front, objects, names, now)
    ensures WithTheNew(front + [f], objects, names, Fate(r, now, f, names).1)
  {
    assert f.Key() in now <==> f.Key() in objects;
    assert f in front + [f] && forall g :: g in front ==> g in front + [f];
  }

  /** A quiet run counts each file once, as what it is, and leaves the account with
      the new ones. */
  lemma {:induction false} CountsByKind(objects: map<Key, Bytes>, files: seq<LocalFile>, names: Names)
    requires DistinctKeys(files)
    ensures var r := Fates(objects, files, names);
      && LeftOut(r.0, files, objects, names) && Differing(r.0, files, objects, names)
      && SentAndPresent(r.0, files, objects, names)
      && WithTheNew(files, objects, names, r.1)
  {
    if files != [] {
      var front, f := files[..|files| - 1], files[|files| - 1];
      assert files == front + [f];
      CountsByKind(objects, front, names);
      var so := Fates(objects, front, names);
      LeftMore(front, f, objects, names, so.0, so.1);
      DifferingMore(front, f, objects, names, so.0, so.1);
      SentMore(front, f, objects, names, so.0, so.1);
      WithOneMore(front, f, objects, names, so.0, so.1);
    }
  }
}
