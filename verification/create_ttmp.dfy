/**
 * The manifest-building part of `create_ttmp_inner`: from the files a mod
 * needs (each content hash with its uses) and the mod's option groups, it
 * builds the TexTools pages (one per group, numbered in order of first use)
 * and the list of simple mods for uses outside any group; then, for each
 * downloaded file, it hands every use to the encoder.
 */
module CreateTtmp {
  import opened Common
  import opened Ttmp
  import Deduplicate

  /** `SelectionType`. */
  datatype SelectionType = SingleChoice | MultiChoice

  /** `OptionItem`: an option of a group as the caller describes it. */
  datatype OptionItem = OptionItem(name: string, imagePath: Option<string>, description: Option<string>, gamePaths: seq<string>)

  /** `Group`: an option group as the caller describes it. */
  datatype Group = Group(name: string, selectionType: SelectionType, options: seq<OptionItem>)

  /** One use of a file: its group, its option, the game path it replaces, and an archive name. */
  datatype Use = Use(group: Option<string>, option: Option<string>, gamePath: string, archive: Option<string>)

  /** `SimpleMod` of the TexTools manifest. */
  datatype SimpleMod = SimpleMod(
    name: string, fullPath: string, modOffset: nat, modSize: nat,
    category: string, datFile: string, isDefault: bool)

  /** `ModOption` of the TexTools manifest. */
  datatype ModOption = ModOption(
    name: string, selectionType: SelectionType, groupName: string,
    description: Option<string>, imagePath: Option<string>, isChecked: bool, modsJsons: seq<SimpleMod>)

  datatype ModGroup = ModGroup(groupName: string, optionList: seq<ModOption>, selectionType: SelectionType)

  datatype ModPackPage = ModPackPage(modGroups: seq<ModGroup>, pageIndex: int)

  /** The two parts of the manifest the loop builds. */
  datatype Manifest = Manifest(pages: map<string, ModPackPage>, simpleMods: seq<SimpleMod>)

  /** `DAT_FILES`: the game's data file for each top-level folder. */
  const DatFiles: map<string, string> := map[
    "common" := "000000",
    "bgcommon" := "010000",
    "bg" := "020000",
    "cut" := "030000",
    "chara" := "040000",
    "shader" := "050000",
    "ui" := "060000",
    "sound" := "070000",
    "vfx" := "080000",
    "ui_script" := "090000",
    "exd" := "0a0000",
    "game_script" := "0b0000",
    "music" := "0c0000",
    "sqpack_test" := "120000",
    "debug" := "130000"
  ]

  /** `split('/').next()`: the text before the first `/`, or all of it. */
  function FirstSegment(p: string): (r: string)
    ensures |r| <= |p| && r == p[..|r|]
    ensures forall i :: 0 <= i < |r| ==> r[i] != '/'
    ensures |r| < |p| ==> p[|r|] == '/'
  {
    if p == [] || p[0] == '/' then [] else [p[0]] + FirstSegment(p[1..])
  }

  /** The data file a game path belongs to, `040000` for a folder the table does not list. */
  function DatFile(gamePath: string): string
  {
    var first := FirstSegment(gamePath);
    if first in DatFiles then DatFiles[first] else "040000"
  }

  /** Every data file named is six hexadecimal digits ending in `0000`. */
  lemma DatFileShape(gamePath: string)
    ensures |DatFile(gamePath)| == 6 && DatFile(gamePath)[2..] == "0000"
  {
  }

  /** A path under a listed folder gets that folder's file; any other path the character file. */
  lemma DatFileOfFolder(folder: string, rest: string)
    requires forall i :: 0 <= i < |folder| ==> folder[i] != '/'
    ensures DatFile(folder + "/" + rest) == if folder in DatFiles then DatFiles[folder] else DatFiles["chara"]
  {
    FirstSegmentOf(folder, rest);
  }

  lemma {:induction false} FirstSegmentOf(folder: string, rest: string)
    requires forall i :: 0 <= i < |folder| ==> folder[i] != '/'
    ensures FirstSegment(folder + "/" + rest) == folder
    decreases |folder|
  {
    if folder != [] {
      assert (folder + "/" + rest)[1..] == folder[1..] + "/" + rest;
      FirstSegmentOf(folder[1..], rest);
    }
  }

  /** The simple mod written for a use; offset and size are filled in by the encoder. */
  function SimpleModFor(u: Use): (m: SimpleMod)
    ensures m.fullPath == u.gamePath && m.datFile == DatFile(u.gamePath)
    ensures m.name == "" && m.modOffset == 0 && m.modSize == 0
    ensures m.category == "Mod file" && !m.isDefault
  {
    SimpleMod("", u.gamePath, 0, 0, "Mod file", DatFile(u.gamePath), false)
  }

  /** The groups keyed by name; of several groups with one name, the last. */
  function GroupsByName(groups: seq<Group>): map<string, Group>
    decreases |groups|
  {
    if groups == [] then map[]
    else
      var k := |groups| - 1;
      GroupsByName(groups[..k])[groups[k].name := groups[k]]
  }

  /** Every group's name is a key, and nothing else is. */
  lemma {:induction false} GroupsByNameKeys(groups: seq<Group>)
    ensures forall n :: n in GroupsByName(groups) <==> exists i :: 0 <= i < |groups| && groups[i].name == n
    decreases |groups|
  {
    if groups != [] {
      var k := |groups| - 1;
      var init := groups[..k];
      GroupsByNameKeys(init);
      forall n | n in GroupsByName(groups)
        ensures exists i :: 0 <= i < |groups| && groups[i].name == n
      {
        if n != groups[k].name {
          assert GroupsByName(groups) == GroupsByName(init)[groups[k].name := groups[k]];
          assert n in GroupsByName(init);
          var i :| 0 <= i < |init| && init[i].name == n;
          assert groups[i].name == n;
        }
      }
      forall n | exists i :: 0 <= i < |groups| && groups[i].name == n
        ensures n in GroupsByName(groups)
      {
        var i :| 0 <= i < |groups| && groups[i].name == n;
        if i < k {
          assert init[i].name == n;
        }
      }
    }
  }

  /** A group that no later group shares a name with is the one kept under its name. */
  lemma {:induction false} GroupsByNameLast(groups: seq<Group>, i: nat)
    requires i < |groups|
    requires forall j :: i < j < |groups| ==> groups[j].name != groups[i].name
    ensures groups[i].name in GroupsByName(groups)
    ensures GroupsByName(groups)[groups[i].name] == groups[i]
    decreases |groups|
  {
    var k := |groups| - 1;
    if i < k {
      var init := groups[..k];
      assert forall j :: i < j < |init| ==> init[j] == groups[j];
      GroupsByNameLast(init, i);
    }
  }

  /** The page made on a group's first use: one mod group listing all the group's options, unchecked and empty. */
  function NewPage(name: string, g: Group, index: nat): (p: ModPackPage)
    ensures |p.modGroups| == 1 && p.modGroups[0].groupName == name && p.pageIndex == index
    ensures p.modGroups[0].selectionType == g.selectionType
    ensures |p.modGroups[0].optionList| == |g.options|
    ensures forall i :: 0 <= i < |g.options| ==>
      var o := p.modGroups[0].optionList[i];
      o.name == g.options[i].name && o.groupName == g.name && o.selectionType == g.selectionType
      && o.description == g.options[i].description && o.imagePath == g.options[i].imagePath
      && !o.isChecked && o.modsJsons == []
  {
    var options := seq(|g.options|, i requires 0 <= i < |g.options| =>
      ModOption(g.options[i].name, g.selectionType, g.name, g.options[i].description, g.options[i].imagePath, false, []));
    ModPackPage([ModGroup(name, options, g.selectionType)], index)
  }

  /** The first option named `name`, if any. */
  function FirstNamed(options: seq<ModOption>, name: string): (r: Option<nat>)
    ensures r.None? <==> forall i :: 0 <= i < |options| ==> options[i].name != name
    ensures r.Some? ==> (r.value < |options| && options[r.value].name == name
      && forall j :: 0 <= j < r.value ==> options[j].name != name)
  {
    if options == [] then None
    else if options[0].name == name then Some(0)
    else match FirstNamed(options[1..], name)
      case None => None
      case Some(i) => Some(i + 1)
  }

  /**
   * `iter_mut().find(|opt| opt.name == *option)` then `push`: the simple
   * mod is added to the first option of that name, and dropped when there
   * is none.
   */
  function PushToFirst(options: seq<ModOption>, name: string, m: SimpleMod): (r: seq<ModOption>)
    ensures FirstNamed(options, name).None? ==> r == options
    ensures FirstNamed(options, name).Some? ==>
      var i := FirstNamed(options, name).value;
      r == options[i := options[i].(modsJsons := options[i].modsJsons + [m])]
  {
    if options == [] then []
    else if options[0].name == name then [options[0].(modsJsons := options[0].modsJsons + [m])] + options[1..]
    else [options[0]] + PushToFirst(options[1..], name, m)
  }

  /** A page after a simple mod is pushed into its first mod group. */
  function Pushed(page: ModPackPage, option: string, m: SimpleMod): (p: ModPackPage)
    ensures p.pageIndex == page.pageIndex && |p.modGroups| == |page.modGroups|
    ensures |page.modGroups| > 0 ==> p.modGroups[0].groupName == page.modGroups[0].groupName
    ensures |page.modGroups| > 0 ==>
      p.modGroups[0].optionList == PushToFirst(page.modGroups[0].optionList, option, m)
      && p.modGroups[0].selectionType == page.modGroups[0].selectionType
      && p.modGroups[1..] == page.modGroups[1..]
  {
    if |page.modGroups| == 0 then page
    else
      var first := page.modGroups[0];
      var first' := first.(optionList := PushToFirst(first.optionList, option, m));
      page.(modGroups := [first'] + page.modGroups[1..])
  }

  /** The panic an `unwrap` on a missing value raises. */
  const UnwrapNone: Error := Panic("called `Option::unwrap()` on a `None` value")

  /** One use through the loop body: a simple mod, a push into a page (made if need be), or a panic. */
  function Step(acc: Manifest, u: Use, groups: map<string, Group>): Result<Manifest>
  {
    var simple := SimpleModFor(u);
    if u.group.None? && u.option.None? then Ok(acc.(simpleMods := acc.simpleMods + [simple]))
    else if u.group.None? || u.option.None? then Err(UnwrapNone)
    else
      var group := u.group.value;
      if group !in acc.pages && group !in groups then Err(UnwrapNone)
      else
        var page := if group in acc.pages then acc.pages[group] else NewPage(group, groups[group], |acc.pages|);
        if |page.modGroups| == 0 then Err(Panic("index out of bounds"))
        else Ok(acc.(pages := acc.pages[group := Pushed(page, u.option.value, simple)]))
  }

  /** The manifest the loop builds from the uses in the order it visits them; the first panic stops it. */
  function Build(uses: seq<Use>, groups: map<string, Group>): Result<Manifest>
    decreases |uses|
  {
    if uses == [] then Ok(Manifest(map[], []))
    else
      match Build(uses[..|uses| - 1], groups)
      case Err(e) => Err(e)
      case Ok(acc) => Step(acc, uses[|uses| - 1], groups)
  }

  /** All uses of all files, in the order the files are visited. */
  function AllUses(files: seq<(string, seq<Use>)>): seq<Use>
    decreases |files|
  {
    if files == [] then [] else AllUses(files[..|files| - 1]) + files[|files| - 1].1
  }

  /**
   * The loop over `needed_files.files` (in the map's order, given here as a
   * list) and over each file's uses.
   */
  method BuildManifest(files: seq<(string, seq<Use>)>, groups: seq<Group>) returns (r: Result<Manifest>)
    ensures r == Build(AllUses(files), GroupsByName(groups))
  {
    var byName := GroupsByName(groups);
    var acc := Manifest(map[], []);
    for i := 0 to |files|
      invariant Build(AllUses(files[..i]), byName) == Ok(acc)
    {
      var uses := files[i].1;
      ghost var before := AllUses(files[..i]);
      AllUsesStep(files, i);
      for j := 0 to |uses|
        invariant Build(before + uses[..j], byName) == Ok(acc)
      {
        BuildStep(before, uses, j, byName);
        var next := Step(acc, uses[j], byName);
        if next.Err? {
          BuildStaysFailed(before + uses[..j + 1], files, i, j, byName);
          return next;
        }
        acc := next.value;
      }
      assert uses[..|uses|] == uses;
    }
    assert files[..|files|] == files;
    r := Ok(acc);
  }

  /** The uses of the first `i + 1` files are those of the first `i` and then the uses of file `i`. */
  lemma AllUsesStep(files: seq<(string, seq<Use>)>, i: nat)
    requires i < |files|
    ensures AllUses(files[..i + 1]) == AllUses(files[..i]) + files[i].1
    ensures AllUses(files[..i]) + files[i].1[..0] == AllUses(files[..i])
  {
    assert files[..i + 1][..i] == files[..i];
  }

  /** One more use is one more step of the loop. */
  lemma BuildStep(before: seq<Use>, uses: seq<Use>, j: nat, groups: map<string, Group>)
    requires j < |uses|
    ensures var done := Build(before + uses[..j], groups);
      && (done.Err? ==> Build(before + uses[..j + 1], groups) == done)
      && (done.Ok? ==> Build(before + uses[..j + 1], groups) == Step(done.value, uses[j], groups))
  {
    assert (before + uses[..j + 1])[..|before + uses[..j + 1]| - 1] == before + uses[..j];
  }

  /** Once the loop has panicked, the rest of the uses change nothing. */
  lemma {:induction false} BuildErrPrefix(uses: seq<Use>, more: seq<Use>, groups: map<string, Group>)
    requires Build(uses, groups).Err?
    ensures Build(uses + more, groups) == Build(uses, groups)
    decreases |more|
  {
    if more != [] {
      BuildErrPrefix(uses, more[..|more| - 1], groups);
      LastOfAppend(uses, more);
      BuildAfterErr(uses + more, groups);
    } else {
      assert uses + more == uses;
    }
  }

  lemma BuildAfterErr(uses: seq<Use>, groups: map<string, Group>)
    requires uses != [] && Build(uses[..|uses| - 1], groups).Err?
    ensures Build(uses, groups) == Build(uses[..|uses| - 1], groups)
  {
  }

  lemma BuildStaysFailed(done: seq<Use>, files: seq<(string, seq<Use>)>, i: nat, j: nat, groups: map<string, Group>)
    requires i < |files| && j < |files[i].1|
    requires done == AllUses(files[..i]) + files[i].1[..j + 1]
    requires Build(done, groups).Err?
    ensures Build(AllUses(files), groups) == Build(done, groups)
  {
    AllUsesAround(files, i, j);
    BuildErrPrefix(done, files[i].1[j + 1..] + AllUses(files[i + 1..]), groups);
  }

  /** All uses, cut just after use `j` of file `i`. */
  lemma AllUsesAround(files: seq<(string, seq<Use>)>, i: nat, j: nat)
    requires i < |files| && j < |files[i].1|
    ensures AllUses(files) == (AllUses(files[..i]) + files[i].1[..j + 1]) + (files[i].1[j + 1..] + AllUses(files[i + 1..]))
  {
    AllUsesSplit(files, i);
    assert files[i].1 == files[i].1[..j + 1] + files[i].1[j + 1..];
  }

  lemma {:induction false} AllUsesAppend(a: seq<(string, seq<Use>)>, b: seq<(string, seq<Use>)>)
    ensures AllUses(a + b) == AllUses(a) + AllUses(b)
    decreases |b|
  {
    if b == [] {
      assert a + b == a;
    } else {
      var n := |b| - 1;
      LastOfAppend(a, b);
      AllUsesAppend(a, b[..n]);
      AllUsesLast(a + b);
      AllUsesLast(b);
    }
  }

  lemma AllUsesLast(files: seq<(string, seq<Use>)>)
    requires files != []
    ensures AllUses(files) == AllUses(files[..|files| - 1]) + files[|files| - 1].1
  {
  }

  lemma AllUsesSplit(files: seq<(string, seq<Use>)>, i: nat)
    requires i < |files|
    ensures AllUses(files) == AllUses(files[..i]) + files[i].1 + AllUses(files[i + 1..])
  {
    assert files == files[..i + 1] + files[i + 1..];
    AllUsesAppend(files[..i + 1], files[i + 1..]);
    AllUsesStep(files, i);
  }

  // ---------------------------------------------------------------------
  // What the manifest holds

  /** A use the loop panics on: only one of group and option given, or a group the caller did not describe. */
  predicate Panics(u: Use, groups: map<string, Group>) {
    (u.group.None? != u.option.None?) || (u.group.Some? && u.group.value !in groups)
  }

  /** The page indices are 0, 1, ..., n - 1 without repeats, and each page holds one mod group named after its key. */
  ghost predicate PagesNumbered(pages: map<string, ModPackPage>) {
    IndicesBelow(pages) && IndicesDistinct(pages) && PagesNamed(pages)
  }

  ghost predicate IndicesBelow(pages: map<string, ModPackPage>) {
    forall g :: g in pages ==> 0 <= pages[g].pageIndex < |pages|
  }

  ghost predicate IndicesDistinct(pages: map<string, ModPackPage>) {
    forall g, h :: g in pages && h in pages && g != h ==> pages[g].pageIndex != pages[h].pageIndex
  }

  ghost predicate PagesNamed(pages: map<string, ModPackPage>) {
    forall g :: g in pages ==> |pages[g].modGroups| == 1 && pages[g].modGroups[0].groupName == g
  }

  /** A page added under a new key with the next index keeps the pages numbered. */
  lemma PagesNumberedAdd(pages: map<string, ModPackPage>, g: string, page: ModPackPage)
    requires PagesNumbered(pages) && g !in pages
    requires page.pageIndex == |pages| && |page.modGroups| == 1 && page.modGroups[0].groupName == g
    ensures PagesNumbered(pages[g := page]) && |pages[g := page]| == |pages| + 1
  {
    IndicesBelowAdd(pages, g, page);
    IndicesDistinctAdd(pages, g, page);
    PagesNamedUpdate(pages, g, page);
  }

  lemma IndicesBelowAdd(pages: map<string, ModPackPage>, g: string, page: ModPackPage)
    requires IndicesBelow(pages) && g !in pages && page.pageIndex == |pages|
    ensures IndicesBelow(pages[g := page]) && |pages[g := page]| == |pages| + 1
  {
    var m := pages[g := page];
    assert m.Keys == pages.Keys + {g};
    forall h | h in m ensures 0 <= m[h].pageIndex < |m| {
      if h != g {
        assert m[h] == pages[h];
      }
    }
  }

  lemma IndicesDistinctAdd(pages: map<string, ModPackPage>, g: string, page: ModPackPage)
    requires IndicesBelow(pages) && IndicesDistinct(pages) && g !in pages && page.pageIndex == |pages|
    ensures IndicesDistinct(pages[g := page])
  {
    var m := pages[g := page];
    forall h, k | h in m && k in m && h != k ensures m[h].pageIndex != m[k].pageIndex {
      if h != g && k != g {
        assert m[h] == pages[h] && m[k] == pages[k];
      }
    }
  }

  lemma PagesNamedUpdate(pages: map<string, ModPackPage>, g: string, page: ModPackPage)
    requires PagesNamed(pages) && |page.modGroups| == 1 && page.modGroups[0].groupName == g
    ensures PagesNamed(pages[g := page])
  {
  }

  /** A page replaced by one with the same index and first group name keeps the pages numbered. */
  lemma PagesNumberedReplace(pages: map<string, ModPackPage>, g: string, page: ModPackPage)
    requires PagesNumbered(pages) && g in pages
    requires page.pageIndex == pages[g].pageIndex && |page.modGroups| == 1 && page.modGroups[0].groupName == g
    ensures PagesNumbered(pages[g := page]) && |pages[g := page]| == |pages|
  {
    var m := pages[g := page];
    assert m.Keys == pages.Keys;
    assert IndicesBelow(m);
    IndicesDistinctReplace(pages, g, page);
    PagesNamedUpdate(pages, g, page);
  }

  lemma IndicesDistinctReplace(pages: map<string, ModPackPage>, g: string, page: ModPackPage)
    requires IndicesDistinct(pages) && g in pages && page.pageIndex == pages[g].pageIndex
    ensures IndicesDistinct(pages[g := page])
  {
    var m := pages[g := page];
    forall h, k | h in m && k in m && h != k ensures m[h].pageIndex != m[k].pageIndex {
      assert m[h].pageIndex == pages[h].pageIndex && m[k].pageIndex == pages[k].pageIndex;
    }
  }

  /** The uses that go to the simple-mod list: those with neither group nor option. */
  function Ungrouped(uses: seq<Use>): seq<Use>
    decreases |uses|
  {
    if uses == [] then []
    else
      var u := uses[|uses| - 1];
      Ungrouped(uses[..|uses| - 1]) + (if u.group.None? && u.option.None? then [u] else [])
  }

  /** The groups the uses name. */
  function UsedGroups(uses: seq<Use>): set<string>
  {
    set i | 0 <= i < |uses| && uses[i].group.Some? :: uses[i].group.value
  }

  /** The loop panics exactly when some use panics on its own. */
  lemma {:induction false} BuildPanics(uses: seq<Use>, groups: map<string, Group>)
    ensures Build(uses, groups).Err? <==> exists i :: 0 <= i < |uses| && Panics(uses[i], groups)
    decreases |uses|
  {
    if uses != [] {
      var n := |uses| - 1;
      var init := uses[..n];
      BuildPanics(init, groups);
      PanicsLast(uses, groups);
      match Build(init, groups)
      case Err(_) =>
      case Ok(acc) =>
        BuildPages(init, groups);
        forall g | g in UsedGroups(init) ensures g in groups {
          var i :| 0 <= i < |init| && init[i].group.Some? && init[i].group.value == g;
          assert !Panics(init[i], groups);
        }
        StepPanics(acc, uses[n], groups);
    }
  }

  lemma PanicsLast(uses: seq<Use>, groups: map<string, Group>)
    requires uses != []
    ensures var n := |uses| - 1;
      (exists i :: 0 <= i < |uses| && Panics(uses[i], groups))
      <==> (exists i :: 0 <= i < n && Panics(uses[..n][i], groups)) || Panics(uses[n], groups)
  {
    var n := |uses| - 1;
    if exists i :: 0 <= i < |uses| && Panics(uses[i], groups) {
      var i :| 0 <= i < |uses| && Panics(uses[i], groups);
      if i < n {
        assert uses[..n][i] == uses[i];
      }
    }
  }

  lemma StepPanics(acc: Manifest, u: Use, groups: map<string, Group>)
    requires PagesNumbered(acc.pages) && acc.pages.Keys <= groups.Keys
    ensures Step(acc, u, groups).Err? <==> Panics(u, groups)
  {
  }

  /**
   * Without a panic the pages are numbered 0, 1, ... without repeats, and
   * there is one page for each group the uses name, holding one mod group
   * of that name (the order is `BuildPageOrder`).
   */
  lemma {:induction false} BuildPages(uses: seq<Use>, groups: map<string, Group>)
    ensures Build(uses, groups).Ok? ==>
      PagesNumbered(Build(uses, groups).value.pages) && Build(uses, groups).value.pages.Keys == UsedGroups(uses)
    decreases |uses|
  {
    if uses != [] {
      var n := |uses| - 1;
      var init := uses[..n];
      var u := uses[n];
      BuildPages(init, groups);
      UsedGroupsLast(uses);
      if Build(init, groups).Ok? {
        StepPages(Build(init, groups).value, u, groups);
      }
    }
  }

  lemma UsedGroupsLast(uses: seq<Use>)
    requires uses != []
    ensures var u := uses[|uses| - 1];
      UsedGroups(uses) == UsedGroups(uses[..|uses| - 1]) + (if u.group.Some? then {u.group.value} else {})
  {
    var n := |uses| - 1;
    var init := uses[..n];
    var u := uses[n];
    forall g | g in UsedGroups(uses) ensures g in UsedGroups(init) + (if u.group.Some? then {u.group.value} else {}) {
      var i :| 0 <= i < |uses| && uses[i].group.Some? && uses[i].group.value == g;
      if i < n {
        assert init[i] == uses[i];
      }
    }
    forall g | g in UsedGroups(init) ensures g in UsedGroups(uses) {
      var i :| 0 <= i < |init| && init[i].group.Some? && init[i].group.value == g;
      assert uses[i] == init[i];
    }
  }

  /**
   * A step adds a page only for a group not seen before, and gives it the
   * number of pages already made as its index; pages made earlier keep
   * their index.
   */
  lemma StepPages(acc: Manifest, u: Use, groups: map<string, Group>)
    requires PagesNumbered(acc.pages)
    ensures Step(acc, u, groups).Ok? ==>
      PagesNumbered(Step(acc, u, groups).value.pages)
      && Step(acc, u, groups).value.pages.Keys == acc.pages.Keys + (if u.group.Some? then {u.group.value} else {})
    ensures Step(acc, u, groups).Ok? && u.group.Some? && u.group.value !in acc.pages ==>
      Step(acc, u, groups).value.pages[u.group.value].pageIndex == |acc.pages|
    ensures Step(acc, u, groups).Ok? ==>
      forall g :: g in acc.pages ==> Step(acc, u, groups).value.pages[g].pageIndex == acc.pages[g].pageIndex
  {
    if Step(acc, u, groups).Ok? && u.group.Some? {
      var group := u.group.value;
      var simple := SimpleModFor(u);
      if group !in acc.pages {
        var page := NewPage(group, groups[group], |acc.pages|);
        PagesNumberedAdd(acc.pages, group, Pushed(page, u.option.value, simple));
      } else {
        var page := acc.pages[group];
        PagesNumberedReplace(acc.pages, group, Pushed(page, u.option.value, simple));
      }
    }
    StepPageIndices(acc, u, groups);
  }

  /** The `i`-th use is the first one naming its group. */
  predicate FirstUseOfGroup(uses: seq<Use>, i: nat)
    requires i < |uses|
  {
    uses[i].group.Some? && forall j :: 0 <= j < i ==> uses[j].group != uses[i].group
  }

  /**
   * Without a panic the pages are numbered in order of creation: the page
   * of a group has as index the number of distinct groups named before
   * the group's first use.
   */
  lemma {:induction false} BuildPageOrder(uses: seq<Use>, groups: map<string, Group>, i: nat)
    requires i < |uses| && FirstUseOfGroup(uses, i)
    ensures Build(uses, groups).Ok? ==>
      uses[i].group.value in Build(uses, groups).value.pages
      && Build(uses, groups).value.pages[uses[i].group.value].pageIndex == |UsedGroups(uses[..i])|
    decreases |uses|
  {
    if Build(uses, groups).Ok? {
      var n := |uses| - 1;
      var init := uses[..n];
      var g := uses[i].group.value;
      BuildOkLast(uses, groups);
      var acc := Build(init, groups).value;
      BuildPages(init, groups);
      StepPageIndices(acc, uses[n], groups);
      if i < n {
        FirstUseInInit(uses, i);
        BuildPageOrder(init, groups, i);
      } else {
        FirstUseIsNew(uses);
        assert |acc.pages| == |acc.pages.Keys|;
      }
    }
  }

  lemma FirstUseInInit(uses: seq<Use>, i: nat)
    requires i < |uses| - 1 && FirstUseOfGroup(uses, i)
    ensures var init := uses[..|uses| - 1];
      init[i] == uses[i] && FirstUseOfGroup(init, i) && uses[..i] == init[..i]
  {
    var init := uses[..|uses| - 1];
    forall j | 0 <= j < i ensures init[j].group != init[i].group {
      assert init[j] == uses[j];
    }
  }

  lemma FirstUseIsNew(uses: seq<Use>)
    requires uses != [] && FirstUseOfGroup(uses, |uses| - 1)
    ensures uses[|uses| - 1].group.value !in UsedGroups(uses[..|uses| - 1])
  {
    var init := uses[..|uses| - 1];
    forall j | 0 <= j < |init| ensures init[j].group != uses[|uses| - 1].group {
      assert init[j] == uses[j];
    }
  }

  /**
   * A grouped use pushes its simple mod into its group's page: the page
   * made so far, or a fresh one when the group has none yet. The simple
   * mod goes to the first option of that name and every other page is
   * left alone.
   */
  lemma StepPushes(acc: Manifest, u: Use, groups: map<string, Group>)
    requires u.group.Some? && Step(acc, u, groups).Ok?
    ensures var g := u.group.value;
      var before := if g in acc.pages then acc.pages[g] else NewPage(g, groups[g], |acc.pages|);
      var after := Step(acc, u, groups).value.pages;
      && u.option.Some? && (g in acc.pages || g in groups)
      && |before.modGroups| > 0
      && g in after
      && after[g].modGroups[0].optionList == PushToFirst(before.modGroups[0].optionList, u.option.value, SimpleModFor(u))
      && (forall h :: h in acc.pages && h != g ==> h in after && after[h] == acc.pages[h])
      && Step(acc, u, groups).value.simpleMods == acc.simpleMods
  {
  }

  lemma StepPageIndices(acc: Manifest, u: Use, groups: map<string, Group>)
    ensures Step(acc, u, groups).Ok? ==> acc.pages.Keys <= Step(acc, u, groups).value.pages.Keys
    ensures Step(acc, u, groups).Ok? && u.group.Some? ==> u.group.value in Step(acc, u, groups).value.pages
    ensures Step(acc, u, groups).Ok? && u.group.Some? && u.group.value !in acc.pages ==>
      Step(acc, u, groups).value.pages[u.group.value].pageIndex == |acc.pages|
    ensures Step(acc, u, groups).Ok? ==>
      forall g :: g in acc.pages ==> Step(acc, u, groups).value.pages[g].pageIndex == acc.pages[g].pageIndex
  {
  }

  /** Without a panic the simple mods are those of the ungrouped uses, in order. */
  lemma {:induction false} BuildSimpleMods(uses: seq<Use>, groups: map<string, Group>)
    ensures Build(uses, groups).Ok? ==>
      var mods := Build(uses, groups).value.simpleMods;
      |mods| == |Ungrouped(uses)|
      && forall i :: 0 <= i < |mods| ==> mods[i] == SimpleModFor(Ungrouped(uses)[i])
    decreases |uses|
  {
    if uses != [] && Build(uses, groups).Ok? {
      var n := |uses| - 1;
      BuildSimpleMods(uses[..n], groups);
      BuildOkLast(uses, groups);
      var before := Build(uses[..n], groups).value.simpleMods;
      var u := uses[n];
      StepSimpleMods(Build(uses[..n], groups).value, u, groups);
      var added := if u.group.None? && u.option.None? then [u] else [];
      assert Ungrouped(uses) == Ungrouped(uses[..n]) + added;
      ModsForAppend(before, Ungrouped(uses[..n]), added);
    }
  }

  /** Without a panic, the last use is one step from the loop over the others. */
  lemma BuildOkLast(uses: seq<Use>, groups: map<string, Group>)
    requires uses != [] && Build(uses, groups).Ok?
    ensures Build(uses[..|uses| - 1], groups).Ok?
    ensures Build(uses, groups) == Step(Build(uses[..|uses| - 1], groups).value, uses[|uses| - 1], groups)
  {
  }

  /** A step adds a simple mod for an ungrouped use and leaves them alone otherwise. */
  lemma StepSimpleMods(acc: Manifest, u: Use, groups: map<string, Group>)
    ensures var added := if u.group.None? && u.option.None? then [SimpleModFor(u)] else [];
      Step(acc, u, groups).Ok? ==> Step(acc, u, groups).value.simpleMods == acc.simpleMods + added
  {
  }

  lemma ModsForAppend(mods: seq<SimpleMod>, us: seq<Use>, added: seq<Use>)
    requires |mods| == |us| && forall i :: 0 <= i < |mods| ==> mods[i] == SimpleModFor(us[i])
    requires |added| <= 1
    ensures var all := mods + (if added == [] then [] else [SimpleModFor(added[0])]);
      |all| == |us + added| && forall i :: 0 <= i < |all| ==> all[i] == SimpleModFor((us + added)[i])
  {
  }

  // ---------------------------------------------------------------------
  // Handing a downloaded file to the encoder

  /** Which encoder method a use goes to: textures first, then models, else standard. */
  function ClassifyUse(gamePath: string): AddKind
  {
    if EndsWith(gamePath, ".tex") || EndsWith(gamePath, ".atex") then TextureFile
    else if EndsWith(gamePath, ".mdl") then ModelFile
    else StandardFile
  }

  /**
   * No path ends both in a texture and in a model suffix, so testing
   * textures first here and models first when deduplicating gives the
   * same call for every path.
   */
  lemma ClassificationsAgree(gamePath: string)
    ensures ClassifyUse(gamePath) == Deduplicate.Classify(gamePath)
  {
    if EndsWith(gamePath, ".mdl") {
      assert gamePath[|gamePath| - 1] == 'l';
    }
  }

  function UseCall(u: Use, content: seq<byte>): EncoderCall
  {
    EncoderCall(ClassifyUse(u.gamePath), FileInfo(u.group, u.option, u.gamePath), |content|, content)
  }

  function UseCalls(uses: seq<Use>, content: seq<byte>): (r: seq<EncoderCall>)
    ensures |r| == |uses|
  {
    seq(|uses|, i requires 0 <= i < |uses| => UseCall(uses[i], content))
  }

  /**
   * The uses of one downloaded file: each is one encoder call, in order,
   * each reading the whole file from its start and passing the file's
   * length as its size.
   */
  method EncodeUses(uses: seq<Use>, content: seq<byte>, encoder: Encoder)
    modifies encoder
    ensures encoder.calls == old(encoder.calls) + UseCalls(uses, content)
  {
    for i := 0 to |uses|
      invariant encoder.calls == old(encoder.calls) + UseCalls(uses[..i], content)
    {
      AddUse(uses[i], content, encoder);
      UseCallsStep(uses, i, content);
    }
    assert uses[..|uses|] == uses;
  }

  /** The body of the loop over a file's uses: the suffix test, then the one encoder call. */
  method AddUse(u: Use, content: seq<byte>, encoder: Encoder)
    modifies encoder
    ensures encoder.calls == old(encoder.calls) + [UseCall(u, content)]
  {
    var info := FileInfo(u.group, u.option, u.gamePath);
    var path := info.gamePath;
    if EndsWith(path, ".tex") || EndsWith(path, ".atex") {
      encoder.Add(TextureFile, info, |content|, content);
    } else if EndsWith(path, ".mdl") {
      encoder.Add(ModelFile, info, |content|, content);
    } else {
      encoder.Add(StandardFile, info, |content|, content);
    }
  }

  lemma UseCallsStep(uses: seq<Use>, i: nat, content: seq<byte>)
    requires i < |uses|
    ensures UseCalls(uses[..i + 1], content) == UseCalls(uses[..i], content) + [UseCall(uses[i], content)]
  {
  }

  /**
   * The calls a downloaded file gives rise to are those deduplication
   * makes for the same paths: the same method for each use, the whole file
   * as data and its length as size.
   */
  lemma UseCallsLikeDeduplicate(uses: seq<Use>, content: seq<byte>)
    ensures forall i :: 0 <= i < |uses| ==>
      UseCalls(uses, content)[i] == Deduplicate.CallFor(ArchiveEntry(0, uses[i].gamePath, uses[i].group, uses[i].option, content))
  {
    forall i | 0 <= i < |uses|
      ensures UseCalls(uses, content)[i] == Deduplicate.CallFor(ArchiveEntry(0, uses[i].gamePath, uses[i].group, uses[i].option, content))
    {
      ClassificationsAgree(uses[i].gamePath);
    }
  }
}
