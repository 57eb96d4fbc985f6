/** Publication of a restore directory: copy the recovery files into a stage, let the owner verify
    the copies, check everything again, and rename the stage into place.  The two owner callbacks may
    do anything to the files; a file's identity changes with every write. */
module RestoreFiles {
  import opened Octets
  import opened Wrappers

  /** SHA-256, taken to be injective. */
  datatype Digest = Sha256(of: Bytes)

  /** The identity stands for device, inode, size and times. */
  datatype File = File(bytes: Bytes, identity: nat)

  type Folder = map<string, File>

  datatype Role = Graph | Content

  datatype Evidence = Evidence(name: string, size: nat, digest: Digest)

  datatype Manifest = Manifest(files: map<Role, Evidence>, metadata: Bytes)

  datatype Place = InSource | InStage | InDestination

  /** What a callback may do: write a file, or move an existing one, anywhere; remove files and whole
      directories; put an empty directory in the source's place; create the destination. */
  datatype Mutation =
    | Write(place: Place, name: string, bytes: Bytes)
    | Put(place: Place, name: string, from: Place, other: string)
    | Delete(place: Place, name: string)
    | DropStage
    | ReplaceSource(identity: nat)
    | MakeDestination
    | DropDestination

  datatype Refusal = BudgetExhausted | SourceInvalid | ManifestInvalid | NamesInvalid | DestinationExists
                   | CopyMismatch | StageChanged | SourceChanged | Refused

  const RECEIPT := "restoration.json"
  const MANIFEST := "recovery.json"
  const SIDE_SUFFIXES: seq<string> := ["-journal", "-wal", "-shm"]

  predicate EndsWith(name: string, suffix: string) {
    |suffix| <= |name| && name[|name| - |suffix|..] == suffix
  }

  /** Output names are free of reserved names and of SQLite's sidecar names. */
  predicate SafeName(name: string) {
    name != "" && name != RECEIPT && name != MANIFEST
    && forall i :: 0 <= i < |SIDE_SUFFIXES| ==> !EndsWith(name, SIDE_SUFFIXES[i])
  }

  /** A safe name is none that SQLite puts beside some other, and none of the reserved ones. */
  lemma SafeNamesAre(name: string)
    ensures SafeName(name) <==>
            && name !in {"", "restoration.json", "recovery.json"}
            && forall stem: string :: name !in {stem + "-journal", stem + "-wal", stem + "-shm"}
  {
    hide EndsWith;
    assert SIDE_SUFFIXES[0] == "-journal" && SIDE_SUFFIXES[1] == "-wal" && SIDE_SUFFIXES[2] == "-shm";
    forall suffix: string
      ensures EndsWith(name, suffix) <==> exists stem: string :: name == stem + suffix
    {
      EndsIsJoined(name, suffix);
    }
  }

  lemma EndsIsJoined(name: string, suffix: string)
    ensures EndsWith(name, suffix) <==> exists stem: string :: name == stem + suffix
  {
    if EndsWith(name, suffix) {
      assert name == name[..|name| - |suffix|] + suffix;
    }
  }

  /** Graph and content described by one physical file. */
  predicate Shared(m: Manifest) {
    Graph in m.files && Content in m.files && m.files[Graph] == m.files[Content]
  }

  predicate NamesAdmitted(m: Manifest, names: map<Role, string>) {
    && names.Keys == m.files.Keys
    && (forall role :: role in names ==> SafeName(names[role]))
    && (Graph in names && Content in names ==> (names[Graph] == names[Content] <==> Shared(m)))
  }

  predicate ManifestAdmitted(m: Manifest) {
    && Graph in m.files
    && (forall role :: role in m.files ==> m.files[role].name != MANIFEST)
    && (Content in m.files && m.files[Content] != m.files[Graph] ==> m.files[Content].name != m.files[Graph].name)
  }

  /** The roles that own a file of their own, in copying order. */
  function Copied(m: Manifest): seq<Role> {
    [Graph] + (if Content in m.files && !Shared(m) then [Content] else [])
  }

  /** A manifest is admitted when it describes the graph and every physical file has its own name, which is
      not that of the manifest itself. */
  lemma AdmittedIsOneFileEach(m: Manifest)
    ensures ManifestAdmitted(m) <==>
            && Graph in m.files
            && |(set role | role in m.files :: m.files[role].name) + {"recovery.json"}| == |Copied(m)| + 1
  {
    var names := set role | role in m.files :: m.files[role].name;
    forall role | role in m.files
      ensures role in {Graph, Content}
    {
      match role
      case Graph =>
      case Content =>
    }
    if Graph in m.files {
      if Content in m.files {
        assert names == {m.files[Graph].name, m.files[Content].name};
      } else {
        assert names == {m.files[Graph].name};
      }
    }
  }

  predicate Matches(bytes: Bytes, e: Evidence) {
    |bytes| == e.size && Sha256(bytes) == e.digest
  }

  /** A folder that holds exactly the manifest's files under their new names, and the receipt. */
  ghost predicate ExactRestore(folder: Folder, m: Manifest, names: map<Role, string>, receipt: Bytes) {
    && names.Keys == m.files.Keys
    && folder.Keys == names.Values + {RECEIPT}
    && (forall role :: role in names ==> Matches(folder[names[role]].bytes, m.files[role]))
    && folder[RECEIPT].bytes == receipt
  }

  /** What the staged files are to hold: the verified copies and the receipt. */
  ghost predicate Wanted(want: map<string, Bytes>, m: Manifest, names: map<Role, string>, receipt: Bytes) {
    && want.Keys == names.Values + {RECEIPT}
    && (forall role :: role in names && role in m.files ==>
        names[role] in want && Matches(want[names[role]], m.files[role]))
    && want[RECEIPT] == receipt
  }

  ghost predicate Holds(folder: Folder, want: map<string, Bytes>) {
    folder.Keys == want.Keys && forall n :: n in want ==> folder[n].bytes == want[n]
  }

  lemma WantedFolderIsExact(folder: Folder, want: map<string, Bytes>, m: Manifest, names: map<Role, string>,
                            receipt: Bytes)
    requires NamesAdmitted(m, names) && Wanted(want, m, names, receipt) && Holds(folder, want)
    ensures ExactRestore(folder, m, names, receipt)
  {
    assert forall role :: role in names ==> names[role] in names.Values;
  }

  predicate Sidecar(name: string, n: string) {
    exists k :: 0 <= k < |SIDE_SUFFIXES| && n == name + SIDE_SUFFIXES[k]
  }

  /** A name the helper may create, or let SQLite create, in its stage. */
  ghost predicate HelperName(names: map<Role, string>, n: string) {
    n == RECEIPT
    || exists role :: role in names && (n == names[role] || Sidecar(names[role], n))
  }

  lemma ReceiptIsHelperName(names: map<Role, string>)
    ensures HelperName(names, RECEIPT)
  {
  }

  /** The files of a folder that are none of the owned names. */
  function Strangers(folder: Option<Folder>, owned: seq<string>): Folder {
    if folder.None? then map[] else map n | n in folder.value && n !in owned :: folder.value[n]
  }

  /** What is left of a folder when the owned names are removed, all but those that will not go. */
  function Left(folder: Folder, owned: seq<string>, stuck: set<string>): Folder {
    map n | n in folder && (n !in owned || n in stuck) :: folder[n]
  }

  /** The folder after the clean-up; it goes itself once it is empty, unless it is held. */
  function CleanedUp(folder: Option<Folder>, owned: seq<string>, stuck: set<string>, held: bool): Option<Folder> {
    if folder.None? then None
    else
      var rest := Left(folder.value, owned, stuck);
      if rest == map[] && !held then None else Some(rest)
  }

  lemma OneLess(folder: Folder, owned: seq<string>, stuck: set<string>)
    ensures Left(folder, [], stuck) == folder
    ensures owned != [] && owned[0] !in stuck ==>
              Left(folder, owned, stuck) == Left(folder, owned[1..], stuck) - {owned[0]}
    ensures owned != [] && owned[0] in stuck ==> Left(folder, owned, stuck) == Left(folder, owned[1..], stuck)
  {
    if owned != [] {
      assert owned == [owned[0]] + owned[1..];
    }
  }

  lemma StrangersAreLeft(folder: Option<Folder>, owned: seq<string>, stuck: set<string>, held: bool)
    ensures Strangers(CleanedUp(folder, owned, stuck, held), owned) == Strangers(folder, owned)
    ensures var r := CleanedUp(folder, owned, stuck, held);
            r.Some? ==> (forall n :: n in r.value ==> n !in owned || n in stuck) && (r.value != map[] || held)
  {
  }

  lemma ReceiptIsNoStranger(folder: Folder, f: File, owned: seq<string>)
    ensures Strangers(Some(folder[RECEIPT := f]), owned + [RECEIPT]) == Strangers(Some(folder), owned + [RECEIPT])
  {
  }

  lemma OwnedAreNoStrangers(folder: Folder, owned: seq<string>)
    requires forall n :: n in folder ==> n in owned
    ensures Strangers(Some(folder), owned) == map[]
  {
  }

  class World {
    var source: Folder
    var sourceIdentity: nat
    var stage: Option<Folder>
    var destination: Option<Folder>
    /** How often the deadline may still be checked before it is reached. */
    var budget: nat
    var issued: nat
    /** What each issued identity stands for. */
    ghost var contents: map<nat, Bytes>
    /** The destination as the callbacks, or the time before the call, left it. */
    ghost var theirs: Option<Folder>
    /** The stage as the last callback left it, or None before any. */
    ghost var handedBack: Option<Folder>

    ghost predicate FolderLawful(folder: Folder)
      reads this`contents
    {
      forall n :: n in folder ==>
        folder[n].identity in contents && contents[folder[n].identity] == folder[n].bytes
    }

    /** Equal identities mean equal bytes, now and later. */
    ghost predicate Lawful()
      reads this`source, this`stage, this`destination, this`issued, this`contents
    {
      && (forall k :: k in contents ==> k < issued)
      && FolderLawful(source)
      && (stage.Some? ==> FolderLawful(stage.value))
      && (destination.Some? ==> FolderLawful(destination.value))
    }

    ghost predicate Extends(before: map<nat, Bytes>)
      reads this`contents
    {
      forall k :: k in before ==> k in contents && contents[k] == before[k]
    }

    method CheckBudget() returns (r: Result<(), Refusal>)
      modifies this`budget
      ensures r == if old(budget) == 0 then Err(BudgetExhausted) else Ok(())
      ensures budget == if old(budget) == 0 then 0 else old(budget) - 1
    {
      if budget == 0 {
        return Err(BudgetExhausted);
      }
      budget := budget - 1;
      return Ok(());
    }

    method NewFile(bytes: Bytes) returns (f: File)
      requires Lawful()
      modifies this`issued, this`contents
      ensures Lawful() && Extends(old(contents))
      ensures f.bytes == bytes && f.identity in contents && contents[f.identity] == bytes
    {
      f := File(bytes, issued);
      contents := contents[issued := bytes];
      issued := issued + 1;
    }

    // ---------- the callbacks ----------

    function FolderAt(place: Place): Option<Folder>
      reads this
    {
      match place
      case InSource => Some(source)
      case InStage => stage
      case InDestination => destination
    }

    method SetFolder(place: Place, folder: Folder)
      requires Lawful() && FolderLawful(folder)
      modifies this`source, this`stage, this`destination
      ensures Lawful()
    {
      match place
      case InSource => source := folder;
      case InStage => stage := Some(folder);
      case InDestination => destination := Some(folder);
    }

    method Mutate(m: Mutation)
      requires Lawful()
      modifies this`source, this`sourceIdentity, this`stage, this`destination, this`issued, this`contents
      ensures Lawful() && Extends(old(contents))
    {
      match m
      case Write(place, name, bytes) =>
        var at := FolderAt(place);
        if at.Some? {
          var f := NewFile(bytes);
          SetFolder(place, at.value[name := f]);
        }
      case Put(place, name, from, other) =>
        var at, origin := FolderAt(place), FolderAt(from);
        if at.Some? && origin.Some? && other in origin.value {
          SetFolder(place, at.value[name := origin.value[other]]);
        }
      case Delete(place, name) =>
        var at := FolderAt(place);
        if at.Some? {
          SetFolder(place, at.value - {name});
        }
      case DropStage => stage := None;
      case ReplaceSource(identity) => source, sourceIdentity := map[], identity;
      case MakeDestination =>
        if destination.None? {
          destination := Some(map[]);
        }
      case DropDestination => destination := None;
    }

    /** A callback: any mutations, and then it accepts or refuses. */
    method Callback(mutations: seq<Mutation>, refuses: bool) returns (r: Result<(), Refusal>)
      requires Lawful()
      modifies this`source, this`sourceIdentity, this`stage, this`destination, this`issued, this`contents,
               this`theirs, this`handedBack
      ensures Lawful() && Extends(old(contents)) && theirs == destination && handedBack == stage
      ensures mutations == [] ==>
                && source == old(source) && sourceIdentity == old(sourceIdentity) && stage == old(stage)
                && destination == old(destination) && issued == old(issued) && contents == old(contents)
      ensures r.Ok? <==> !refuses
    {
      for i := 0 to |mutations|
        invariant Lawful() && Extends(old(contents))
        invariant i == 0 ==>
                    && source == old(source) && sourceIdentity == old(sourceIdentity) && stage == old(stage)
                    && destination == old(destination) && issued == old(issued) && contents == old(contents)
      {
        Mutate(mutations[i]);
      }
      theirs, handedBack := destination, stage;
      return if refuses then Err(Refused) else Ok(());
    }

    // ---------- the checks ----------

    /** The source directory still holds exactly the recorded files. */
    predicate SourceIntact(identity: nat, identities: map<string, nat>)
      reads this`source, this`sourceIdentity
    {
      && sourceIdentity == identity && source.Keys == identities.Keys
      && forall n :: n in identities ==> n in source && source[n].identity == identities[n]
    }

    /** The source holds the manifest's files, each as the manifest describes it, and nothing else. */
    ghost predicate SourceGood(m: Manifest)
      reads this`source
    {
      && source.Keys == (set role | role in m.files :: m.files[role].name) + {MANIFEST}
      && forall role :: role in m.files ==>
           m.files[role].name in source && Matches(source[m.files[role].name].bytes, m.files[role])
    }

    ghost predicate SourceMatches(m: Manifest)
      reads this`source
    {
      forall role :: role in m.files ==>
        m.files[role].name in source && Matches(source[m.files[role].name].bytes, m.files[role])
    }

    /** The stage holds the manifest's files under their new names, and nothing else. */
    ghost predicate StageGood(m: Manifest, names: map<Role, string>)
      requires names.Keys == m.files.Keys
      reads this`stage
    {
      && stage.Some? && stage.value.Keys == names.Values
      && forall role :: role in names ==>
           names[role] in stage.value && Matches(stage.value[names[role]].bytes, m.files[role])
    }

    predicate StageHolds(names: set<string>)
      reads this`stage
    {
      stage.Some? && stage.value.Keys == names
    }

    predicate StageIdentities(identities: map<string, nat>)
      reads this`stage
    {
      stage.Some? && forall n :: n in identities ==> n in stage.value && stage.value[n].identity == identities[n]
    }

    // ---------- the steps ----------

    /** Reads the manifest and records what the source holds. */
    method Inspect(parse: Bytes -> Option<Manifest>, names: map<Role, string>)
      returns (r: Result<(Manifest, map<string, nat>), Refusal>)
      requires Lawful()
      modifies this`budget
      ensures r.Ok? ==>
                var (m, identities) := r.value;
                && MANIFEST in source && parse(source[MANIFEST].bytes) == Some(m)
                && ManifestAdmitted(m) && NamesAdmitted(m, names)
                && SourceIntact(sourceIdentity, identities)
                && destination == None
                && (forall role :: role in m.files ==> m.files[role].name in identities)
      ensures forall m ::
                && MANIFEST in source && parse(source[MANIFEST].bytes) == Some(m) && ManifestAdmitted(m)
                && NamesAdmitted(m, names) && destination == None && SourceGood(m) && old(budget) > 0 ==>
                  r.Ok? && r.value.0 == m && budget == old(budget) - 1
    {
      var ok := CheckBudget();
      if ok.Err? {
        return Err(ok.error);
      }
      if MANIFEST !in source {
        return Err(SourceInvalid);
      }
      var parsed := parse(source[MANIFEST].bytes);
      if parsed.None? || !ManifestAdmitted(parsed.value) {
        return Err(ManifestInvalid);
      }
      var m := parsed.value;
      if !NamesAdmitted(m, names) {
        return Err(NamesInvalid);
      }
      if destination.Some? {
        return Err(DestinationExists);
      }
      if !(forall role :: role in m.files ==>
           m.files[role].name in source && |source[m.files[role].name].bytes| == m.files[role].size) {
        return Err(SourceInvalid);
      }
      var required := set role | role in m.files :: m.files[role].name;
      if source.Keys != required + {MANIFEST} {
        return Err(SourceInvalid);
      }
      var identities := map n | n in source :: source[n].identity;
      assert forall role :: role in m.files ==> m.files[role].name in required;
      return Ok((m, identities));
    }

    /** Copies one file and compares what was copied with the manifest. */
    method CopyExact(e: Evidence, identity: nat, name: string) returns (r: Result<(), Refusal>)
      requires Lawful() && stage.Some?
      modifies this`stage, this`issued, this`contents, this`budget
      ensures Lawful() && Extends(old(contents)) && stage.Some?
      ensures stage.value.Keys <= old(stage.value.Keys) + {name}
      ensures r.Ok? ==> stage.value.Keys == old(stage.value.Keys) + {name} && Matches(stage.value[name].bytes, e)
      ensures r.Ok? ==> stage.value == old(stage).value[name := stage.value[name]]
      ensures && old(budget) > 0 && e.name in source && source[e.name].identity == identity
              && Matches(source[e.name].bytes, e) ==>
                r.Ok? && budget == old(budget) - 1
    {
      var ok := CheckBudget();
      if ok.Err? {
        return ok;
      }
      if e.name !in source || source[e.name].identity != identity {
        return Err(SourceChanged);
      }
      var bytes := source[e.name].bytes;
      var f := NewFile(bytes);
      stage := Some(stage.value[name := f]);
      if !Matches(bytes, e) {
        return Err(CopyMismatch);
      }
      return Ok(());
    }

    /** The folder holds what the first n copied roles have. */
    static ghost predicate StagedSoFar(folder: Folder, m: Manifest, names: map<Role, string>, n: nat)
      requires ManifestAdmitted(m) && NamesAdmitted(m, names) && n <= |Copied(m)|
    {
      && folder.Keys == (set k | 0 <= k < n :: names[Copied(m)[k]])
      && forall k :: 0 <= k < n ==>
           names[Copied(m)[k]] in folder && Matches(folder[names[Copied(m)[k]]].bytes, m.files[Copied(m)[k]])
    }

    /** The copied role whose file a role has. */
    static function CopiedFor(m: Manifest, role: Role): (k: nat) {
      if role == Graph || Shared(m) then 0 else 1
    }

    static lemma CopiedRole(m: Manifest, names: map<Role, string>, role: Role)
      requires ManifestAdmitted(m) && NamesAdmitted(m, names) && role in names
      ensures var k := CopiedFor(m, role);
              && k < |Copied(m)| && role in m.files && Copied(m)[k] in names && Copied(m)[k] in m.files
              && names[Copied(m)[k]] == names[role] && m.files[Copied(m)[k]] == m.files[role]
    {
      hide SafeName;
    }

    static lemma CopiedRoles(m: Manifest, names: map<Role, string>)
      requires ManifestAdmitted(m) && NamesAdmitted(m, names)
      ensures names.Keys == m.files.Keys
      ensures forall k :: 0 <= k < |Copied(m)| ==> Copied(m)[k] in m.files
    {
      hide SafeName;
    }

    static lemma OneMoreStaged(folder: Folder, m: Manifest, names: map<Role, string>, n: nat, f: File)
      requires ManifestAdmitted(m) && NamesAdmitted(m, names) && n < |Copied(m)| && StagedSoFar(folder, m, names, n)
      ensures names[Copied(m)[n]] !in folder
      ensures Matches(f.bytes, m.files[Copied(m)[n]]) ==>
                StagedSoFar(folder[names[Copied(m)[n]] := f], m, names, n + 1)
    {
      hide SafeName, Matches;
    }

    lemma AllStaged(m: Manifest, names: map<Role, string>)
      requires ManifestAdmitted(m) && NamesAdmitted(m, names)
      requires stage.Some? && StagedSoFar(stage.value, m, names, |Copied(m)|)
      ensures StageGood(m, names)
    {
      hide SafeName, Matches, Copied, NamesAdmitted, ManifestAdmitted, CopiedFor;
      CopiedRoles(m, names);
      var folder := stage.value;
      forall role | role in names
        ensures names[role] in folder && Matches(folder[names[role]].bytes, m.files[role])
      {
        CopiedRole(m, names, role);
      }
      forall n | n in folder
        ensures n in names.Values
      {
      }
      assert folder.Keys == names.Values;
    }

    lemma SourceHas(m: Manifest, identities: map<string, nat>, role: Role)
      requires SourceGood(m) && SourceIntact(sourceIdentity, identities) && role in m.files
      requires m.files[role].name in identities
      ensures var e := m.files[role];
              e.name in source && source[e.name].identity == identities[e.name] && Matches(source[e.name].bytes, e)
    {
    }

    static lemma HelperNames(names: map<Role, string>, role: Role, sidecars: seq<string>)
      requires role in names && |sidecars| == |SIDE_SUFFIXES|
      requires forall k :: 0 <= k < |sidecars| ==> sidecars[k] == names[role] + SIDE_SUFFIXES[k]
      ensures HelperName(names, names[role]) && forall k :: 0 <= k < |sidecars| ==> HelperName(names, sidecars[k])
    {
    }

    /** Every copied role in turn; `owned` lists the names the helper may remove again. */
    method FillStage(m: Manifest, names: map<Role, string>, identities: map<string, nat>)
      returns (r: Result<(), Refusal>, owned: seq<string>)
      requires Lawful() && stage == Some(map[]) && ManifestAdmitted(m) && NamesAdmitted(m, names)
      requires forall role :: role in m.files ==> m.files[role].name in identities
      modifies this`stage, this`issued, this`contents, this`budget
      ensures Lawful() && Extends(old(contents)) && stage.Some?
      ensures forall n :: n in stage.value ==> n in owned
      ensures forall n :: n in owned ==> HelperName(names, n)
      ensures SourceGood(m) && SourceIntact(sourceIdentity, identities) && old(budget) >= |Copied(m)| ==>
                r.Ok? && StageGood(m, names) && budget == old(budget) - |Copied(m)|
    {
      hide Matches, NamesAdmitted, HelperName, ManifestAdmitted, SafeName, StagedSoFar, Copied, StageGood, SourceGood,
        SourceIntact;
      owned := [];
      ghost var good := SourceGood(m) && SourceIntact(sourceIdentity, identities) && old(budget) >= |Copied(m)|;
      var roles := Copied(m);
      CopiedRoles(m, names);
      NoneStaged(m, names);
      for i := 0 to |roles|
        invariant Lawful() && Extends(old(contents)) && stage.Some?
        invariant forall n :: n in stage.value ==> n in owned
        invariant forall n :: n in owned ==> HelperName(names, n)
        invariant good ==> StagedSoFar(stage.value, m, names, i) && budget == old(budget) - i
      {
        if names[roles[i]] in stage.value {
          if good {
            OneMoreStaged(stage.value, m, names, i, stage.value[names[roles[i]]]);
          }
          return Err(StageChanged), owned;
        }
        ghost var before := stage.value;
        if good {
          SourceHas(m, identities, roles[i]);
        }
        r, owned := StageRole(m, names, identities, roles[i], owned);
        if r.Err? {
          return;
        }
        if good {
          OneMoreStaged(before, m, names, i, stage.value[names[roles[i]]]);
        }
      }
      if good {
        AllStaged(m, names);
      }
      r := Ok(());
    }

    method StageRole(m: Manifest, names: map<Role, string>, identities: map<string, nat>, role: Role,
                     before: seq<string>)
      returns (r: Result<(), Refusal>, owned: seq<string>)
      requires Lawful() && stage.Some? && role in names && role in m.files && m.files[role].name in identities
      requires forall n :: n in stage.value ==> n in before
      requires forall n :: n in before ==> HelperName(names, n)
      modifies this`stage, this`issued, this`contents, this`budget
      ensures Lawful() && Extends(old(contents)) && stage.Some?
      ensures forall n :: n in stage.value ==> n in owned
      ensures forall n :: n in owned ==> HelperName(names, n)
      ensures r.Ok? ==>
                && names[role] in stage.value && Matches(stage.value[names[role]].bytes, m.files[role])
                && stage.value == old(stage).value[names[role] := stage.value[names[role]]]
      ensures var e := m.files[role];
              && old(budget) > 0 && e.name in source && source[e.name].identity == identities[e.name]
              && Matches(source[e.name].bytes, e) ==>
                r.Ok? && budget == old(budget) - 1
    {
      hide Matches, HelperName;
      var sidecars := seq(|SIDE_SUFFIXES|, k requires 0 <= k < |SIDE_SUFFIXES| => names[role] + SIDE_SUFFIXES[k]);
      HelperNames(names, role, sidecars);
      owned := before + [names[role]] + sidecars;
      r := CopyExact(m.files[role], identities[m.files[role].name], names[role]);
    }

    static lemma NoneStaged(m: Manifest, names: map<Role, string>)
      requires ManifestAdmitted(m) && NamesAdmitted(m, names)
      ensures StagedSoFar(map[], m, names, 0)
    {
    }

    /** Hashes every staged file again and records the identity it has now. */
    method VerifyStaged(m: Manifest, names: map<Role, string>) returns (r: Result<map<string, nat>, Refusal>)
      requires Lawful() && NamesAdmitted(m, names)
      modifies this`budget
      ensures r.Ok? ==> StageVerified(r.value, m, names)
      ensures StageGood(m, names) && old(budget) > 0 ==> r.Ok? && budget == old(budget) - 1
    {
      var ok := CheckBudget();
      if ok.Err? {
        return Err(ok.error);
      }
      if !StageHolds(names.Values) {
        return Err(StageChanged);
      }
      assert forall role :: role in names ==> names[role] in names.Values;
      if !(forall role :: role in names ==> Matches(stage.value[names[role]].bytes, m.files[role])) {
        return Err(CopyMismatch);
      }
      return Ok(map n | n in stage.value :: stage.value[n].identity);
    }

    /** Hashes every source file, and the manifest, once more. */
    method HashSources(m: Manifest, manifestDigest: Digest) returns (r: Result<(), Refusal>)
      modifies this`budget
      ensures r.Ok? ==>
                && MANIFEST in source && Sha256(source[MANIFEST].bytes) == manifestDigest
                && forall role :: role in m.files ==>
                   m.files[role].name in source && Matches(source[m.files[role].name].bytes, m.files[role])
      ensures && SourceGood(m) && MANIFEST in source && Sha256(source[MANIFEST].bytes) == manifestDigest
              && old(budget) > 0 ==>
                r.Ok? && budget == old(budget) - 1
    {
      var ok := CheckBudget();
      if ok.Err? {
        return ok;
      }
      if !(forall role :: role in m.files ==>
           m.files[role].name in source && Matches(source[m.files[role].name].bytes, m.files[role])) {
        return Err(SourceChanged);
      }
      if MANIFEST !in source || Sha256(source[MANIFEST].bytes) != manifestDigest {
        return Err(SourceChanged);
      }
      return Ok(());
    }

    /** The files in the stage that are not the helper's are the ones the last callback left there. */
    ghost predicate StrangersKept(owned: seq<string>)
      reads this`stage, this`handedBack
    {
      Strangers(stage, owned) == Strangers(handedBack, owned)
    }

    /** Removes the helper's own names, last first, and the directory when nothing else is left.  A
        name that cannot be removed, or a directory that cannot, is noted and skipped. */
    method Cleanup(owned: seq<string>, stuck: set<string>, held: bool) returns (notes: seq<string>, noted: bool)
      requires Lawful()
      modifies this`stage
      ensures Lawful()
      ensures stage == CleanedUp(old(stage), owned, stuck, held)
      ensures forall n :: n in notes <==> n in owned && (old(stage).None? || n in stuck)
      ensures noted <==> old(stage).None? || stage.Some?
    {
      hide Left;
      notes := [];
      ghost var before := if stage.None? then map[] else stage.value;
      OneLess(before, [], stuck);
      assert owned[|owned|..] == [];
      for i := |owned| downto 0
        invariant Lawful()
        invariant stage == if old(stage).None? then None else Some(Left(before, owned[i..], stuck))
        invariant forall n :: n in notes <==> n in owned[i..] && (old(stage).None? || n in stuck)
      {
        assert owned[i..] == [owned[i]] + owned[i + 1..];
        OneLess(before, owned[i..], stuck);
        if stage.None? || owned[i] in stuck {
          notes := notes + [owned[i]];
        } else {
          stage := Some(stage.value - {owned[i]});
        }
      }
      assert owned[0..] == owned;
      noted := stage.None? || stage.value != map[] || held;
      if !noted {
        stage := None;
      }
    }

    /** The checks after the owner's verification: staged copies, then the source they came from. */
    method CheckVerified(m: Manifest, names: map<Role, string>, identity: nat, identities: map<string, nat>,
                         manifestDigest: Digest)
      returns (r: Result<map<string, nat>, Refusal>)
      requires Lawful() && NamesAdmitted(m, names)
      modifies this`budget
      ensures r.Ok? ==>
                && StageVerified(r.value, m, names) && SourceIntact(identity, identities) && SourceMatches(m)
                && MANIFEST in source && Sha256(source[MANIFEST].bytes) == manifestDigest
      ensures && StageGood(m, names) && SourceGood(m) && SourceIntact(identity, identities) && MANIFEST in source
              && Sha256(source[MANIFEST].bytes) == manifestDigest && old(budget) >= 2 ==>
                r.Ok? && budget == old(budget) - 2
    {
      r := VerifyStaged(m, names);
      if r.Err? {
        return;
      }
      if !SourceIntact(identity, identities) {
        return Err(SourceChanged);
      }
      var hashed := HashSources(m, manifestDigest);
      if hashed.Err? {
        return Err(hashed.error);
      }
    }

    /** The stage holds exactly the manifest's files, each under its verified identity. */
    ghost predicate StageVerified(verified: map<string, nat>, m: Manifest, names: map<Role, string>)
      requires names.Keys == m.files.Keys
      reads this`stage
    {
      && stage.Some? && stage.value.Keys == names.Values == verified.Keys
      && (forall n :: n in verified ==> n in stage.value && stage.value[n].identity == verified[n])
      && (forall role :: role in names ==>
          names[role] in stage.value && Matches(stage.value[names[role]].bytes, m.files[role]))
    }

    /** The owner verifies the copies; then the copies are hashed, and the receipt joins them. */
    method VerifyCopies(m: Manifest, names: map<Role, string>, identity: nat, identities: map<string, nat>,
                        manifestDigest: Digest, receipt: Bytes,
                        verifier: seq<Mutation>, verifierRefuses: bool, ghost owned: seq<string>)
      returns (r: Result<map<string, nat>, Refusal>, receiptCreated: bool, ghost want: map<string, Bytes>)
      requires Lawful() && NamesAdmitted(m, names) && theirs == destination && StrangersKept(owned)
      modifies this
      ensures Lawful() && Extends(old(contents)) && destination == theirs
      ensures StrangersKept(if receiptCreated then owned + [RECEIPT] else owned)
      ensures r.Ok? ==> Pins(r.value, want) && Wanted(want, m, names, receipt)
      ensures r.Ok? ==> SourceIntact(identity, identities) && SourceMatches(m)
      ensures && verifier == [] && !verifierRefuses && old(StageGood(m, names)) && old(SourceGood(m))
              && old(SourceIntact(identity, identities)) && MANIFEST in old(source)
              && Sha256(old(source)[MANIFEST].bytes) == manifestDigest && old(budget) >= 2 ==>
                && r.Ok? && budget == old(budget) - 2 && StageHolds(r.value.Keys) && StageIdentities(r.value)
                && SourceIntact(identity, identities) && destination == old(destination)
    {
      hide NamesAdmitted, Matches, Wanted, Pins, SafeName, Strangers, SourceGood, SourceIntact, StageIdentities;
      receiptCreated, want := false, map[];
      if !SourceIntact(identity, identities) {
        return Err(SourceChanged), receiptCreated, want;
      }
      if !StageHolds(names.Values) {
        return Err(StageChanged), receiptCreated, want;
      }
      var called := Callback(verifier, verifierRefuses);
      if called.Err? {
        return Err(called.error), receiptCreated, want;
      }
      r := CheckVerified(m, names, identity, identities, manifestDigest);
      if r.Err? {
        return;
      }
      receiptCreated := true;
      var staged;
      ghost var verified := stage.value;
      staged, want := AddReceipt(m, names, r.value, receipt);
      ReceiptIsNoStranger(verified, stage.value[RECEIPT], owned);
      return Ok(staged), receiptCreated, want;
    }

    /** Every recorded identity stands for the wanted bytes. */
    ghost predicate Pins(staged: map<string, nat>, want: map<string, Bytes>)
      reads this`contents
    {
      staged.Keys == want.Keys && forall n :: n in want ==> staged[n] in contents && contents[staged[n]] == want[n]
    }

    method AddReceipt(m: Manifest, names: map<Role, string>, verified: map<string, nat>, receipt: Bytes)
      returns (staged: map<string, nat>, ghost want: map<string, Bytes>)
      requires Lawful() && NamesAdmitted(m, names)
      requires StageVerified(verified, m, names)
      modifies this`stage, this`issued, this`contents
      ensures Lawful() && Extends(old(contents))
      ensures Pins(staged, want) && Wanted(want, m, names, receipt)
      ensures stage.Some? && RECEIPT in stage.value
      ensures stage.value == old(stage).value[RECEIPT := stage.value[RECEIPT]]
      ensures StageHolds(staged.Keys) && StageIdentities(staged)
    {
      hide SafeName, Matches, Wanted, NamesAdmitted;
      ghost var copies := map n | n in stage.value :: stage.value[n].bytes;
      var f := NewFile(receipt);
      NoReceiptAmongNames(m, names);
      want := copies[RECEIPT := receipt];
      CopiesAreWanted(copies, m, names, receipt);
      stage := Some(stage.value[RECEIPT := f]);
      staged := verified[RECEIPT := f.identity];
    }

    static lemma CopiesAreWanted(copies: map<string, Bytes>, m: Manifest, names: map<Role, string>, receipt: Bytes)
      requires NamesAdmitted(m, names) && copies.Keys == names.Values && RECEIPT !in names.Values
      requires forall role :: role in names ==> names[role] in copies && Matches(copies[names[role]], m.files[role])
      ensures Wanted(copies[RECEIPT := receipt], m, names, receipt)
    {
      hide SafeName, Matches;
      assert forall role :: role in names ==> names[role] in names.Values;
    }

    static lemma NoReceiptAmongNames(m: Manifest, names: map<Role, string>)
      requires NamesAdmitted(m, names)
      ensures RECEIPT !in names.Values
      ensures forall role :: role in names ==> names[role] in names.Values
    {
    }

    /** The stage still holds the recorded files, and the source the files that were copied. */
    method CheckUnchanged(staged: map<string, nat>, identity: nat,
                          identities: map<string, nat>) returns (r: Result<(), Refusal>)
      modifies this`budget
      ensures r.Ok? ==> StageHolds(staged.Keys) && SourceIntact(identity, identities) && StageIdentities(staged)
      ensures r.Err? ==> r.error in {BudgetExhausted, StageChanged, SourceChanged}
      ensures && StageHolds(staged.Keys) && SourceIntact(identity, identities) && StageIdentities(staged)
              && old(budget) > 0 ==>
                r.Ok? && budget == old(budget) - 1
    {
      r := CheckBudget();
      if r.Err? {
        return;
      }
      if !StageHolds(staged.Keys) {
        return Err(StageChanged);
      }
      if !SourceIntact(identity, identities) {
        return Err(SourceChanged);
      }
      if !StageIdentities(staged) {
        return Err(StageChanged);
      }
    }

    /** Publication admission between two rounds of the last checks. */
    method Admit(staged: map<string, nat>, identity: nat, identities: map<string, nat>,
                 admission: seq<Mutation>, admissionRefuses: bool, ghost owned: seq<string>)
      returns (r: Result<(), Refusal>)
      requires Lawful() && theirs == destination && StrangersKept(owned)
      modifies this
      ensures Lawful() && Extends(old(contents)) && theirs == destination && StrangersKept(owned)
      ensures r.Ok? ==> StageHolds(staged.Keys) && SourceIntact(identity, identities) && StageIdentities(staged)
      ensures && admission == [] && !admissionRefuses && old(StageHolds(staged.Keys))
              && old(SourceIntact(identity, identities)) && old(StageIdentities(staged)) && old(budget) >= 2 ==>
                r.Ok? && budget == old(budget) - 2 && destination == old(destination)
    {
      hide *;
      r := CheckUnchanged(staged, identity, identities);
      if r.Err? {
        ExtendsItself();
        return;
      }
      r := Callback(admission, admissionRefuses);
      SameStageSameStrangers(owned);
      if r.Err? {
        return;
      }
      r := CheckUnchanged(staged, identity, identities);
    }

    lemma ExtendsItself()
      ensures Extends(contents)
    {
    }

    lemma SameStageSameStrangers(owned: seq<string>)
      requires stage == handedBack
      ensures StrangersKept(owned)
    {
    }

    /** Admission, the destination's absence, the deadline, and the rename. */
    method Publish(staged: map<string, nat>, identity: nat, identities: map<string, nat>,
                   admission: seq<Mutation>, admissionRefuses: bool, ghost want: map<string, Bytes>,
                   ghost owned: seq<string>)
      returns (r: Result<(), Refusal>)
      requires Lawful() && theirs == destination && StrangersKept(owned)
      requires Pins(staged, want)
      modifies this
      ensures Lawful() && Extends(old(contents))
      ensures r.Ok? ==>
                && destination.Some? && Holds(destination.value, want)
                && stage == None && theirs == None && SourceIntact(identity, identities)
      ensures r.Err? ==> destination == theirs && StrangersKept(owned)
      ensures && admission == [] && !admissionRefuses && old(StageHolds(staged.Keys))
              && old(SourceIntact(identity, identities)) && old(StageIdentities(staged)) && old(destination) == None
              && old(budget) >= 3 ==>
                r.Ok?
    {
      r := Admit(staged, identity, identities, admission, admissionRefuses, owned);
      if r.Err? {
        return;
      }
      if destination.Some? {
        return Err(DestinationExists);
      }
      r := CheckBudget();
      if r.Err? {
        return;
      }
      StageHoldsWanted(staged, want, old(contents));
      destination, stage := stage, None;
      return Ok(());
    }

    /** Recorded identities that are still in place stand for the bytes they were issued for. */
    lemma StageHoldsWanted(staged: map<string, nat>, want: map<string, Bytes>, promised: map<nat, Bytes>)
      requires Lawful() && Extends(promised) && StageHolds(staged.Keys) && StageIdentities(staged)
      requires staged.Keys == want.Keys
      requires forall n :: n in want ==> staged[n] in promised && promised[staged[n]] == want[n]
      ensures Holds(stage.value, want)
    {
    }

    /** What runs inside the stage: any refusal leaves the clean-up to the caller. */
    method StageAndPublish(m: Manifest, names: map<Role, string>, identity: nat, identities: map<string, nat>,
                           manifestDigest: Digest, receipt: Bytes, verifier: seq<Mutation>, verifierRefuses: bool,
                           admission: seq<Mutation>, admissionRefuses: bool)
      returns (r: Result<(), Refusal>, owned: seq<string>)
      requires Lawful() && stage == Some(map[]) && theirs == destination && handedBack == None
      requires ManifestAdmitted(m) && NamesAdmitted(m, names)
      requires forall role :: role in m.files ==> m.files[role].name in identities
      modifies this
      ensures Lawful() && Extends(old(contents))
      ensures r.Ok? ==>
                && destination.Some? && ExactRestore(destination.value, m, names, receipt)
                && theirs == None && stage == None && SourceIntact(identity, identities) && SourceMatches(m)
      ensures r.Err? ==> destination == theirs && StrangersKept(owned)
      ensures forall n :: n in owned ==> HelperName(names, n)
      ensures && verifier == [] && !verifierRefuses && admission == [] && !admissionRefuses && old(SourceGood(m))
              && identity == old(sourceIdentity) && old(SourceIntact(identity, identities)) && MANIFEST in old(source)
              && Sha256(old(source)[MANIFEST].bytes) == manifestDigest && old(destination) == None
              && old(budget) >= |Copied(m)| + 5 ==>
                r.Ok?
    {
      hide NamesAdmitted, ManifestAdmitted, ExactRestore, Wanted, Holds, HelperName, SourceGood, StageGood,
        SourceIntact,
        StageHolds, StageIdentities, Matches, Pins, Copied, Lawful;
      r, owned := FillStage(m, names, identities);
      OwnedAreNoStrangers(stage.value, owned);
      if r.Err? {
        return;
      }
      var staged, receiptCreated, want :=
        VerifyCopies(m, names, identity, identities, manifestDigest, receipt, verifier, verifierRefuses, owned);
      if receiptCreated {
        ReceiptIsHelperName(names);
        owned := owned + [RECEIPT];
      }
      if staged.Err? {
        return Err(staged.error), owned;
      }
      ghost var before, promised := source, contents;
      SourceLawful(identity, identities);
      r := Publish(staged.value, identity, identities, admission, admissionRefuses, want, owned);
      if r.Ok? {
        SourceStillMatches(m, before, promised, identities, identity);
        WantedFolderIsExact(destination.value, want, m, names, receipt);
      }
    }

    /** Stages, publishes, and cleans up after a refusal. */
    method PublishOrCleanUp(m: Manifest, names: map<Role, string>, identities: map<string, nat>, manifestDigest: Digest,
                            receipt: Bytes, verifier: seq<Mutation>, verifierRefuses: bool,
                            admission: seq<Mutation>, admissionRefuses: bool, stuck: set<string>, held: bool)
      returns (r: Result<(), Refusal>, owned: seq<string>)
      requires Lawful() && stage == None && theirs == destination && handedBack == None
      requires ManifestAdmitted(m) && NamesAdmitted(m, names)
      requires forall role :: role in m.files ==> m.files[role].name in identities
      modifies this
      ensures Lawful() && Extends(old(contents))
      ensures r.Ok? ==>
                && destination.Some? && ExactRestore(destination.value, m, names, receipt)
                && theirs == None && stage == None && SourceIntact(old(sourceIdentity), identities)
                && SourceMatches(m)
      ensures r.Err? ==> destination == theirs && StrangersKept(owned)
      ensures r.Err? && stage.Some? ==>
                && (forall n :: n in stage.value ==> n !in owned || n in stuck)
                && (stage.value != map[] || held)
      ensures forall n :: n in owned ==> HelperName(names, n)
      ensures && verifier == [] && !verifierRefuses && admission == [] && !admissionRefuses && old(SourceGood(m))
              && old(SourceIntact(sourceIdentity, identities)) && MANIFEST in old(source)
              && Sha256(old(source)[MANIFEST].bytes) == manifestDigest && old(destination) == None
              && old(budget) >= |Copied(m)| + 5 ==>
                r.Ok?
    {
      hide NamesAdmitted, ManifestAdmitted, ExactRestore, HelperName, SourceGood, Copied, CleanedUp, Strangers, Matches,
        SafeName, SourceIntact;
      var identity := sourceIdentity;
      stage := Some(map[]);
      r, owned := StageAndPublish(m, names, identity, identities, manifestDigest, receipt,
                                  verifier, verifierRefuses, admission, admissionRefuses);
      if r.Err? {
        StrangersAreLeft(stage, owned, stuck, held);
        var notes, noted := Cleanup(owned, stuck, held);
      }
    }

    /** The manifest reads as this one, the source holds what it describes, and the destination is absent. */
    ghost predicate Restorable(parse: Bytes -> Option<Manifest>, names: map<Role, string>, m: Manifest)
      reads this`source, this`destination
    {
      && MANIFEST in source && parse(source[MANIFEST].bytes) == Some(m) && ManifestAdmitted(m)
      && NamesAdmitted(m, names) && SourceGood(m) && destination == None
    }

    /** The whole preparation.  On success the destination, absent before, holds exactly the
        manifest's bytes and the receipt; it does succeed when the callbacks do nothing, the source is
        as its manifest says, and the deadline allows every check.  On refusal the call created no destination;
          every file in
        the stage that is not the helper's is exactly what the last callback left there, and a stage
        is left behind only for such files, for names that would not go, or when it is held. */
    method PrepareRestore(parse: Bytes -> Option<Manifest>, render: Manifest -> Bytes, names: map<Role, string>,
                          verifier: seq<Mutation>, verifierRefuses: bool,
                          admission: seq<Mutation>, admissionRefuses: bool,
                          stuck: set<string>, held: bool)
      returns (r: Result<Manifest, Refusal>, owned: seq<string>)
      requires Lawful() && stage == None
      modifies this
      ensures Lawful()
      ensures r.Ok? ==>
                && destination.Some? && ExactRestore(destination.value, r.value, names, render(r.value))
                && old(destination) == None && theirs == None && stage == None
                && MANIFEST in old(source) && parse(old(source)[MANIFEST].bytes) == Some(r.value)
                && source.Keys == old(source).Keys
                && (forall n :: n in source ==> source[n].bytes == old(source)[n].bytes)
                && names.Keys == r.value.files.Keys && destination.value.Keys == names.Values + {RECEIPT}
                && (forall role :: role in names ==>
                      && names[role] in destination.value && r.value.files[role].name in old(source)
                      && destination.value[names[role]].bytes == old(source)[r.value.files[role].name].bytes)
      ensures && verifier == [] && !verifierRefuses && admission == [] && !admissionRefuses ==>
                forall m :: old(Restorable(parse, names, m)) && old(budget) >= |Copied(m)| + 6 ==> r == Ok(m)
      ensures r.Err? ==> destination == theirs
      ensures r.Err? ==> StrangersKept(owned)
      ensures r.Err? && stage.Some? ==>
                && (forall n :: n in stage.value ==> n !in owned || n in stuck)
                && (stage.value != map[] || held)
      ensures forall n :: n in owned ==> HelperName(names, n)
    {
      hide NamesAdmitted, ManifestAdmitted, ExactRestore, HelperName, SourceGood, Copied, Matches,
        SafeName, SourceIntact;
      theirs, handedBack := destination, None;
      var inspected := Inspect(parse, names);
      if inspected.Err? {
        return Err(inspected.error), [];
      }
      var (m, identities) := inspected.value;
      var identity, manifestDigest := sourceIdentity, Sha256(source[MANIFEST].bytes);
      var published;
      published, owned := PublishOrCleanUp(m, names, identities, manifestDigest, render(m), verifier, verifierRefuses,
                                           admission, admissionRefuses, stuck, held);
      if published.Err? {
        return Err(published.error), owned;
      }
      SourceUnchanged(old(source), old(contents), identities, identity);
      SameBytes(m, names, render(m));
      return Ok(m), owned;
    }

    /** What the manifest describes twice is the same twice. */
    lemma SameBytes(m: Manifest, names: map<Role, string>, receipt: Bytes)
      requires SourceMatches(m) && destination.Some? && ExactRestore(destination.value, m, names, receipt)
      ensures names.Keys == m.files.Keys && destination.value.Keys == names.Values + {RECEIPT}
      ensures forall role :: role in names ==>
                && names[role] in destination.value && m.files[role].name in source
                && destination.value[names[role]].bytes == source[m.files[role].name].bytes
    {
      assert forall role :: role in names ==> names[role] in names.Values;
    }

    lemma SourceLawful(identity: nat, identities: map<string, nat>)
      requires Lawful() && SourceIntact(identity, identities)
      ensures source.Keys == identities.Keys
      ensures forall n :: n in source ==> source[n].identity == identities[n]
      ensures forall n :: n in source ==>
                source[n].identity in contents && contents[source[n].identity] == source[n].bytes
    {
    }

    lemma SourceStillMatches(m: Manifest, before: Folder, promised: map<nat, Bytes>, identities: map<string, nat>,
                             identity: nat)
      requires Lawful() && Extends(promised) && SourceIntact(identity, identities)
      requires before.Keys == identities.Keys
      requires forall n :: n in before ==> before[n].identity == identities[n]
      requires forall n :: n in before ==>
                 before[n].identity in promised && promised[before[n].identity] == before[n].bytes
      requires forall role :: role in m.files ==>
                 m.files[role].name in before && Matches(before[m.files[role].name].bytes, m.files[role])
      ensures SourceMatches(m)
    {
      hide Matches;
      SourceUnchanged(before, promised, identities, identity);
    }

    /** The recorded identities pin the bytes of the source. */
    lemma SourceUnchanged(before: Folder, promised: map<nat, Bytes>, identities: map<string, nat>, identity: nat)
      requires Lawful() && Extends(promised) && SourceIntact(identity, identities)
      requires before.Keys == identities.Keys
      requires forall n :: n in before ==> before[n].identity == identities[n]
      requires forall n :: n in before ==>
                 before[n].identity in promised && promised[before[n].identity] == before[n].bytes
      ensures source.Keys == before.Keys
      ensures forall n :: n in source ==> source[n].bytes == before[n].bytes
    {
      forall n | n in source
        ensures source[n].bytes == before[n].bytes
      {
        assert source[n].identity == identities[n] == before[n].identity;
      }
    }
  }
}
