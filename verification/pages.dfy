/**
 * The decisions `main` takes for each device page and each service page: which IOC
 * directories are processed, the metadata defaults, the PV count, the quick-navigation
 * list, and the contents each page is built from.
 */
module Pages {
  import opened Wrappers
  import opened Text
  import opened Metadata
  import opened Links
  import opened Values
  import opened Services

  // ---------------------------------------------------------------- allow-list

  /** `[ioc['name'] for ioc in iocs]`. */
  function IocNames(iocs: seq<IocEntry>): (names: seq<string>)
    ensures |names| == |iocs|
    ensures forall i :: 0 <= i < |iocs| ==> names[i] == iocs[i].name
  {
    if iocs == [] then [] else [iocs[0].name] + IocNames(iocs[1..])
  }

  /** `allowed_iocs`: `None` without a values file, else the configured names. */
  function AllowedIocs(values: Option<Values>): Option<seq<string>>
  {
    match values
    case None => None
    case Some(v) => Some(IocNames(v.iocs))
  }

  /** `[ioc for ioc in ioc_dirs if ioc in allowed]`. */
  function KeepAllowed(dirs: seq<string>, allowed: seq<string>): seq<string>
  {
    if dirs == [] then []
    else (if dirs[0] in allowed then [dirs[0]] else []) + KeepAllowed(dirs[1..], allowed)
  }

  /** The directories `main` processes: filtered only when the allow-list is truthy. */
  function FilterIocs(dirs: seq<string>, allowed: Option<seq<string>>): seq<string>
  {
    if allowed.Some? && allowed.value != [] then KeepAllowed(dirs, allowed.value) else dirs
  }

  lemma {:induction false} KeepAllowedMembers(dirs: seq<string>, allowed: seq<string>, x: string)
    ensures x in KeepAllowed(dirs, allowed) <==> x in dirs && x in allowed
  {
    if dirs != [] {
      KeepAllowedMembers(dirs[1..], allowed, x);
      assert dirs == [dirs[0]] + dirs[1..];
    }
  }

  /**
   * A directory is processed exactly when it is listed and, if the allow-list is
   * non-empty, on it; without a values file or with an empty list every directory is kept as listed.
   */
  lemma FilterIocsMembers(dirs: seq<string>, allowed: Option<seq<string>>, x: string)
    ensures x in FilterIocs(dirs, allowed) <==> x in dirs && (allowed.None? || allowed.value == [] || x in allowed.value)
    ensures allowed.None? || allowed.value == [] ==> FilterIocs(dirs, allowed) == dirs
  {
    if allowed.Some? && allowed.value != [] {
      KeepAllowedMembers(dirs, allowed.value, x);
    }
  }

  /**
   * With a values file that lists IOCs, a directory is processed exactly when some IOC
   * entry carries its name; without a values file, or with an empty list, every directory is.
   */
  lemma AllowedIocsFilter(values: Option<Values>, dirs: seq<string>, x: string)
    ensures x in FilterIocs(dirs, AllowedIocs(values)) <==>
      x in dirs && (values.None? || values.value.iocs == [] ||
        exists i :: 0 <= i < |values.value.iocs| && values.value.iocs[i].name == x)
  {
    FilterIocsMembers(dirs, AllowedIocs(values), x);
    if values.Some? {
      var names := IocNames(values.value.iocs);
      if x in names {
        var i :| 0 <= i < |names| && names[i] == x;
        assert values.value.iocs[i].name == x;
      }
    }
  }

  /** Filtering keeps listing order: the filter of a concatenation is the concatenation of the filters. */
  lemma {:induction false} FilterIocsAppend(a: seq<string>, b: seq<string>, allowed: Option<seq<string>>)
    ensures FilterIocs(a + b, allowed) == FilterIocs(a, allowed) + FilterIocs(b, allowed)
    decreases |a|
  {
    if allowed.Some? && allowed.value != [] && a != [] {
      assert (a + b)[1..] == a[1..] + b;
      FilterIocsAppend(a[1..], b, allowed);
    } else if a == [] {
      assert a + b == b;
    }
  }

  /** `ioc_configs[name]['desc']` when the name is configured with a description, else the empty string. */
  function IocDescription(iocs: seq<IocEntry>, name: string): (desc: string)
  {
    if iocs == [] then ""
    else if iocs[|iocs| - 1].name == name then iocs[|iocs| - 1].desc.GetOr("")
    else IocDescription(iocs[..|iocs| - 1], name)
  }

  /** An IOC the values file does not name has no description. */
  lemma {:induction false} IocDescriptionMissing(iocs: seq<IocEntry>, name: string)
    requires forall i :: 0 <= i < |iocs| ==> iocs[i].name != name
    ensures IocDescription(iocs, name) == ""
  {
    if iocs != [] {
      IocDescriptionMissing(iocs[..|iocs| - 1], name);
    }
  }

  /** The dictionary `ioc_configs` keeps the last entry of each name: the description is that entry's. */
  lemma {:induction false} IocDescriptionLast(iocs: seq<IocEntry>, name: string, i: nat)
    requires i < |iocs| && iocs[i].name == name
    requires forall j :: i < j < |iocs| ==> iocs[j].name != name
    ensures IocDescription(iocs, name) == iocs[i].desc.GetOr("")
  {
    if i < |iocs| - 1 {
      var init := iocs[..|iocs| - 1];
      assert init[i] == iocs[i];
      forall j | i < j < |init|
        ensures init[j].name != name
      {
        assert init[j] == iocs[j];
      }
      IocDescriptionLast(init, name, i);
    }
  }

  // ---------------------------------------------------------------- PV count

  /** How many of the parts hold a non-whitespace character. */
  function CountNonBlank(parts: seq<string>): nat
  {
    if parts == [] then 0 else (if AllSpace(parts[0]) then 0 else 1) + CountNonBlank(parts[1..])
  }

  /** `len([line for line in content.strip().split('\n') if line.strip()])`. */
  function PvCount(content: string): nat
  {
    CountNonBlank(SplitOn(Strip(content), '\n'))
  }

  lemma {:induction false} BlankSplit(w: string)
    requires AllSpace(w)
    ensures CountNonBlank(SplitOn(w, '\n')) == 0
    decreases |w|
  {
    if w != [] {
      BlankSplit(w[1..]);
      var r := SplitOn(w[1..], '\n');
      assert CountNonBlank(r) == (if AllSpace(r[0]) then 0 else 1) + CountNonBlank(r[1..]);
      if w[0] != '\n' {
        AllSpaceCons(w[0], r[0]);
      }
    }
  }

  lemma {:induction false} LeadingBlank(w: string, t: string)
    requires AllSpace(w)
    ensures CountNonBlank(SplitOn(w + t, '\n')) == CountNonBlank(SplitOn(t, '\n'))
    decreases |w|
  {
    if w != [] {
      assert (w + t)[1..] == w[1..] + t;
      LeadingBlank(w[1..], t);
      var r := SplitOn(w[1..] + t, '\n');
      if w[0] != '\n' {
        AllSpaceCons(w[0], r[0]);
      }
    } else {
      assert w + t == t;
    }
  }

  lemma {:induction false} TrailingBlank(t: string, w: string)
    requires AllSpace(w)
    ensures AllSpace(SplitOn(t + w, '\n')[0]) == AllSpace(SplitOn(t, '\n')[0])
    ensures CountNonBlank(SplitOn(t + w, '\n')[1..]) == CountNonBlank(SplitOn(t, '\n')[1..])
    decreases |t|
  {
    if t == [] {
      assert t + w == w;
      BlankSplit(w);
      var r := SplitOn(w, '\n');
      assert CountNonBlank(r) == (if AllSpace(r[0]) then 0 else 1) + CountNonBlank(r[1..]);
    } else {
      assert (t + w)[1..] == t[1..] + w;
      TrailingBlank(t[1..], w);
      var r := SplitOn(t[1..] + w, '\n');
      var r' := SplitOn(t[1..], '\n');
      if t[0] != '\n' {
        AllSpaceCons(t[0], r[0]);
        AllSpaceCons(t[0], r'[0]);
      } else {
        assert CountNonBlank(r) == (if AllSpace(r[0]) then 0 else 1) + CountNonBlank(r[1..]);
        assert CountNonBlank(r') == (if AllSpace(r'[0]) then 0 else 1) + CountNonBlank(r'[1..]);
      }
    }
  }

  /**
   * Stripping the whole content first changes nothing: the PV count is the number of
   * newline-separated lines of the file that hold a non-whitespace character.
   */
  lemma PvCountNonBlankLines(content: string)
    ensures PvCount(content) == CountNonBlank(SplitOn(content, '\n'))
  {
    var m := Strip(content);
    var a, b := StripSplit(content);
    LeadingBlank(a, m + b);
    TrailingBlank(m, b);
    var r := SplitOn(m + b, '\n');
    var r' := SplitOn(m, '\n');
    assert CountNonBlank(r) == (if AllSpace(r[0]) then 0 else 1) + CountNonBlank(r[1..]);
    assert CountNonBlank(r') == (if AllSpace(r'[0]) then 0 else 1) + CountNonBlank(r'[1..]);
  }

  // ---------------------------------------------------------------- navigation

  /** An entry of the page's "Quick Navigation" list. */
  datatype NavLink = AssetDoc(url: string) | StartLog | YamlConfig | StCmd | ProcessVariables(count: nat)

  /** The markdown line `main` appends for an entry. */
  function NavLine(l: NavLink): string
  {
    match l
    case AssetDoc(url) => "- [IOC Asset Documentation](" + url + ")"
    case StartLog => "- [Start Log](#startlog)"
    case YamlConfig => "- [Configuration (YAML)](#yaml)"
    case StCmd => "- [EPICS st.cmd](#stcmd)"
    case ProcessVariables(n) => "- [Process Variables (" + Decimal(n) + ")](#pvlist)"
  }

  /** The fixed position of each kind of entry in the list. */
  function Rank(l: NavLink): nat
  {
    match l
    case AssetDoc(_) => 0
    case StartLog => 1
    case YamlConfig => 2
    case StCmd => 3
    case ProcessVariables(_) => 4
  }

  predicate Ranked(links: seq<NavLink>) {
    forall i, j :: 0 <= i < j < |links| ==> Rank(links[i]) < Rank(links[j])
  }

  /** An entry that may appear on the page: the asset link, the start log, and each entry whose content is non-empty. */
  predicate Expected(l: NavLink, asset: string, yaml: string, stcmd: string, pvlist: string, pvCount: nat) {
    match l
    case AssetDoc(url) => url == asset && asset != ""
    case StartLog => true
    case YamlConfig => yaml != ""
    case StCmd => stcmd != ""
    case ProcessVariables(n) => n == pvCount && pvlist != ""
  }

  /**
   * The navigation list of a page: in the fixed order, only expected entries, always the
   * start log, and each other entry whenever its content (or the asset reference) is non-empty.
   */
  predicate NavFor(links: seq<NavLink>, asset: string, yaml: string, stcmd: string, pvlist: string, pvCount: nat) {
    && Ranked(links)
    && (forall i :: 0 <= i < |links| ==> Expected(links[i], asset, yaml, stcmd, pvlist, pvCount))
    && StartLog in links
    && (asset != "" ==> AssetDoc(asset) in links)
    && (yaml != "" ==> YamlConfig in links)
    && (stcmd != "" ==> StCmd in links)
    && (pvlist != "" ==> ProcessVariables(pvCount) in links)
  }

  /** Each entry is on the list exactly when its content is non-empty; the start log always is. */
  lemma NavForMembers(links: seq<NavLink>, asset: string, yaml: string, stcmd: string, pvlist: string, pvCount: nat)
    requires NavFor(links, asset, yaml, stcmd, pvlist, pvCount)
    ensures StartLog in links
    ensures AssetDoc(asset) in links <==> asset != ""
    ensures YamlConfig in links <==> yaml != ""
    ensures StCmd in links <==> stcmd != ""
    ensures ProcessVariables(pvCount) in links <==> pvlist != ""
    ensures |links| >= 1 && (links[0] == AssetDoc(asset) <==> asset != "")
  {
    if AssetDoc(asset) in links {
      var i :| 0 <= i < |links| && links[i] == AssetDoc(asset);
      assert Expected(links[i], asset, yaml, stcmd, pvlist, pvCount);
    }
    if YamlConfig in links {
      var i :| 0 <= i < |links| && links[i] == YamlConfig;
      assert Expected(links[i], asset, yaml, stcmd, pvlist, pvCount);
    }
    if StCmd in links {
      var i :| 0 <= i < |links| && links[i] == StCmd;
      assert Expected(links[i], asset, yaml, stcmd, pvlist, pvCount);
    }
    if ProcessVariables(pvCount) in links {
      var i :| 0 <= i < |links| && links[i] == ProcessVariables(pvCount);
      assert Expected(links[i], asset, yaml, stcmd, pvlist, pvCount);
    }
    if asset != "" {
      RankedHead(links, AssetDoc(asset));
    }
    assert Expected(links[0], asset, yaml, stcmd, pvlist, pvCount);
  }

  /** The `nav_links` list built by successive appends. */
  method NavLinks(asset: string, yaml: string, stcmd: string, pvlist: string, pvCount: nat) returns (links: seq<NavLink>)
    ensures NavFor(links, asset, yaml, stcmd, pvlist, pvCount)
    ensures |links| >= 1 && links[0] == (if asset != "" then AssetDoc(asset) else StartLog)
  {
    links := [];
    if asset != "" {
      links := links + [AssetDoc(asset)];
    }
    links := links + [StartLog];
    ghost var head := links;
    assert head == Optional(asset != "", AssetDoc(asset)) + [StartLog];
    if yaml != "" {
      links := links + [YamlConfig];
    }
    ghost var withYaml := links;
    if stcmd != "" {
      links := links + [StCmd];
    }
    ghost var withStCmd := links;
    if pvlist != "" {
      links := links + [ProcessVariables(pvCount)];
    }
    assert withYaml == head + Optional(yaml != "", YamlConfig);
    assert withStCmd == withYaml + Optional(stcmd != "", StCmd);
    assert links == withStCmd + Optional(pvlist != "", ProcessVariables(pvCount));
    BuiltNavFor(asset, yaml, stcmd, pvlist, pvCount);
  }

  /** The list `NavLinks` builds meets the navigation conditions and starts with the asset link when there is one. */
  lemma BuiltNavFor(asset: string, yaml: string, stcmd: string, pvlist: string, pvCount: nat)
    ensures var links := Built(asset, yaml, stcmd, pvlist, pvCount);
      && NavFor(links, asset, yaml, stcmd, pvlist, pvCount)
      && |links| >= 1 && links[0] == (if asset != "" then AssetDoc(asset) else StartLog)
  {
    BuiltRanked(asset, yaml, stcmd, pvlist, pvCount);
    BuiltExpected(asset, yaml, stcmd, pvlist, pvCount);
    BuiltPresent(asset, yaml, stcmd, pvlist, pvCount);
  }

  /** The entries that may follow the start log, each present when its content is non-empty. */
  function Optional(present: bool, l: NavLink): seq<NavLink>
  {
    if present then [l] else []
  }

  /** The list `NavLinks` builds: the optional asset link, the start log, then the optional content entries. */
  function Built(asset: string, yaml: string, stcmd: string, pvlist: string, pvCount: nat): seq<NavLink>
  {
    Optional(asset != "", AssetDoc(asset)) + [StartLog]
      + Optional(yaml != "", YamlConfig) + Optional(stcmd != "", StCmd) + Optional(pvlist != "", ProcessVariables(pvCount))
  }

  /** Every entry of `a` has a rank in `[lo, hi)`. */
  predicate RanksIn(a: seq<NavLink>, lo: nat, hi: nat) {
    forall i :: 0 <= i < |a| ==> lo <= Rank(a[i]) < hi
  }

  lemma OptionalRanked(present: bool, l: NavLink)
    ensures Ranked(Optional(present, l)) && RanksIn(Optional(present, l), Rank(l), Rank(l) + 1)
  {
  }

  /** Two ranked lists, the ranks of the first below those of the second, join into a ranked list. */
  lemma RankedConcat(a: seq<NavLink>, b: seq<NavLink>, lo: nat, mid: nat, hi: nat)
    requires lo <= mid <= hi
    requires Ranked(a) && Ranked(b) && RanksIn(a, lo, mid) && RanksIn(b, mid, hi)
    ensures Ranked(a + b) && RanksIn(a + b, lo, hi)
  {
    var c := a + b;
    forall i, j | 0 <= i < j < |c|
      ensures Rank(c[i]) < Rank(c[j])
    {
      if j < |a| {
        assert c[i] == a[i] && c[j] == a[j];
      } else if i >= |a| {
        assert c[i] == b[i - |a|] && c[j] == b[j - |a|];
      } else {
        assert c[i] == a[i] && c[j] == b[j - |a|];
      }
    }
    forall i | 0 <= i < |c|
      ensures lo <= Rank(c[i]) < hi
    {
      if i < |a| {
        assert c[i] == a[i] && lo <= Rank(a[i]) < mid;
      } else {
        assert c[i] == b[i - |a|] && mid <= Rank(b[i - |a|]) < hi;
      }
    }
  }

  lemma HeadRanked(asset: string)
    ensures var head := Optional(asset != "", AssetDoc(asset)) + [StartLog];
      Ranked(head) && RanksIn(head, 0, 2)
  {
    OptionalRanked(asset != "", AssetDoc(asset));
    assert Ranked([StartLog]) && RanksIn([StartLog], 1, 2);
    RankedConcat(Optional(asset != "", AssetDoc(asset)), [StartLog], 0, 1, 2);
  }

  lemma TailRanked(yaml: string, stcmd: string, pvlist: string, pvCount: nat)
    ensures var tail := Optional(yaml != "", YamlConfig) + Optional(stcmd != "", StCmd) + Optional(pvlist != "", ProcessVariables(pvCount));
      Ranked(tail) && RanksIn(tail, 2, 5)
  {
    var yaml' := Optional(yaml != "", YamlConfig);
    var stcmd' := Optional(stcmd != "", StCmd);
    OptionalRanked(yaml != "", YamlConfig);
    OptionalRanked(stcmd != "", StCmd);
    OptionalRanked(pvlist != "", ProcessVariables(pvCount));
    RankedConcat(yaml', stcmd', 2, 3, 4);
    RankedConcat(yaml' + stcmd', Optional(pvlist != "", ProcessVariables(pvCount)), 2, 4, 5);
  }

  lemma BuiltRanked(asset: string, yaml: string, stcmd: string, pvlist: string, pvCount: nat)
    ensures Ranked(Built(asset, yaml, stcmd, pvlist, pvCount))
  {
    var head := Optional(asset != "", AssetDoc(asset)) + [StartLog];
    var tail := Optional(yaml != "", YamlConfig) + Optional(stcmd != "", StCmd) + Optional(pvlist != "", ProcessVariables(pvCount));
    HeadRanked(asset);
    TailRanked(yaml, stcmd, pvlist, pvCount);
    RankedConcat(head, tail, 0, 2, 5);
    assert Built(asset, yaml, stcmd, pvlist, pvCount) == head + tail;
  }

  /** Every entry of `links` is expected. */
  predicate AllExpected(links: seq<NavLink>, asset: string, yaml: string, stcmd: string, pvlist: string, pvCount: nat) {
    forall i :: 0 <= i < |links| ==> Expected(links[i], asset, yaml, stcmd, pvlist, pvCount)
  }

  lemma ExpectedConcat(a: seq<NavLink>, b: seq<NavLink>, asset: string, yaml: string, stcmd: string, pvlist: string, pvCount: nat)
    requires AllExpected(a, asset, yaml, stcmd, pvlist, pvCount) && AllExpected(b, asset, yaml, stcmd, pvlist, pvCount)
    ensures AllExpected(a + b, asset, yaml, stcmd, pvlist, pvCount)
  {
    forall i | 0 <= i < |a + b|
      ensures Expected((a + b)[i], asset, yaml, stcmd, pvlist, pvCount)
    {
      if i < |a| {
        assert (a + b)[i] == a[i];
      } else {
        assert (a + b)[i] == b[i - |a|];
      }
    }
  }

  lemma BuiltExpected(asset: string, yaml: string, stcmd: string, pvlist: string, pvCount: nat)
    ensures AllExpected(Built(asset, yaml, stcmd, pvlist, pvCount), asset, yaml, stcmd, pvlist, pvCount)
  {
    var a := Optional(asset != "", AssetDoc(asset));
    var y := Optional(yaml != "", YamlConfig);
    var c := Optional(stcmd != "", StCmd);
    var p := Optional(pvlist != "", ProcessVariables(pvCount));
    assert AllExpected(a, asset, yaml, stcmd, pvlist, pvCount);
    assert AllExpected([StartLog], asset, yaml, stcmd, pvlist, pvCount);
    assert AllExpected(y, asset, yaml, stcmd, pvlist, pvCount);
    assert AllExpected(c, asset, yaml, stcmd, pvlist, pvCount);
    assert AllExpected(p, asset, yaml, stcmd, pvlist, pvCount);
    ExpectedConcat(a, [StartLog], asset, yaml, stcmd, pvlist, pvCount);
    ExpectedConcat(a + [StartLog], y, asset, yaml, stcmd, pvlist, pvCount);
    ExpectedConcat(a + [StartLog] + y, c, asset, yaml, stcmd, pvlist, pvCount);
    ExpectedConcat(a + [StartLog] + y + c, p, asset, yaml, stcmd, pvlist, pvCount);
  }

  lemma BuiltPresent(asset: string, yaml: string, stcmd: string, pvlist: string, pvCount: nat)
    ensures var links := Built(asset, yaml, stcmd, pvlist, pvCount);
      && StartLog in links
      && (asset != "" ==> AssetDoc(asset) in links)
      && (yaml != "" ==> YamlConfig in links)
      && (stcmd != "" ==> StCmd in links)
      && (pvlist != "" ==> ProcessVariables(pvCount) in links)
      && links[0] == (if asset != "" then AssetDoc(asset) else StartLog)
  {
    var head := Optional(asset != "", AssetDoc(asset)) + [StartLog];
    var tail := Optional(yaml != "", YamlConfig) + Optional(stcmd != "", StCmd) + Optional(pvlist != "", ProcessVariables(pvCount));
    var links := Built(asset, yaml, stcmd, pvlist, pvCount);
    assert links == head + tail;
    assert StartLog in head;
    assert yaml != "" ==> YamlConfig in tail;
    assert stcmd != "" ==> StCmd in tail;
    assert pvlist != "" ==> ProcessVariables(pvCount) in tail;
  }

  /** The head of a ranked list has the least rank, and is the only element of that rank. */
  lemma RankedHead(a: seq<NavLink>, x: NavLink)
    requires Ranked(a) && x in a
    ensures Rank(a[0]) <= Rank(x)
    ensures Rank(a[0]) == Rank(x) ==> x == a[0]
  {
    var k :| 0 <= k < |a| && a[k] == x;
    if k != 0 {
      assert Rank(a[0]) < Rank(a[k]);
    }
  }

  lemma HeadIn(b: seq<NavLink>)
    ensures b != [] ==> b[0] in b
  {
  }

  /** Past its head, a ranked list holds exactly its other entries. */
  lemma RankedTail(a: seq<NavLink>, x: NavLink)
    requires Ranked(a) && a != []
    ensures x in a[1..] <==> x in a && x != a[0]
  {
    if x in a[1..] {
      var k :| 0 <= k < |a| - 1 && a[1..][k] == x;
      assert a[k + 1] == x;
      assert Rank(a[0]) < Rank(a[k + 1]);
    }
    if x in a && x != a[0] {
      var m :| 0 <= m < |a| && a[m] == x;
      assert a[1..][m - 1] == x;
    }
  }

  /** Two ranked lists with the same entries are the same list. */
  lemma {:induction false} RankedSameElements(a: seq<NavLink>, b: seq<NavLink>)
    requires Ranked(a) && Ranked(b)
    requires forall x :: x in a <==> x in b
    ensures a == b
    decreases |a|
  {
    if a == [] {
      if b != [] {
        HeadIn(b);
        assert false;
      }
    } else {
      assert a[0] in b;
      assert b[0] in a;
      RankedHead(a, b[0]);
      RankedHead(b, a[0]);
      forall x
        ensures x in a[1..] <==> x in b[1..]
      {
        RankedTail(a, x);
        RankedTail(b, x);
      }
      RankedSameElements(a[1..], b[1..]);
      assert a == [a[0]] + a[1..] && b == [b[0]] + b[1..];
    }
  }

  /** The navigation conditions pin the list down: two lists meeting them are the same list. */
  lemma NavForUnique(l1: seq<NavLink>, l2: seq<NavLink>, asset: string, yaml: string, stcmd: string, pvlist: string, pvCount: nat)
    requires NavFor(l1, asset, yaml, stcmd, pvlist, pvCount)
    requires NavFor(l2, asset, yaml, stcmd, pvlist, pvCount)
    ensures l1 == l2
  {
    NavForMembers(l1, asset, yaml, stcmd, pvlist, pvCount);
    NavForMembers(l2, asset, yaml, stcmd, pvlist, pvCount);
    forall x
      ensures x in l1 <==> x in l2
    {
      if x in l1 {
        var i :| 0 <= i < |l1| && l1[i] == x;
        assert Expected(l1[i], asset, yaml, stcmd, pvlist, pvCount);
      }
      if x in l2 {
        var i :| 0 <= i < |l2| && l2[i] == x;
        assert Expected(l2[i], asset, yaml, stcmd, pvlist, pvCount);
      }
    }
    RankedSameElements(l1, l2);
  }

  /** A `pvlist.txt` holding only whitespace still gets its entry, with the count 0. */
  lemma WhitespacePvList(links: seq<NavLink>, asset: string, yaml: string, stcmd: string, pvlist: string)
    requires pvlist != [] && AllSpace(pvlist)
    requires NavFor(links, asset, yaml, stcmd, pvlist, PvCount(pvlist))
    ensures ProcessVariables(0) in links
  {
    StripShape(pvlist);
    assert Strip(pvlist) == [];
    assert SplitOn([], '\n') == [[]];
    assert CountNonBlank([[]]) == 0;
    assert PvCount(pvlist) == 0;
    NavForMembers(links, asset, yaml, stcmd, pvlist, PvCount(pvlist));
  }

  function NavLines(links: seq<NavLink>): (lines: seq<string>)
    ensures |lines| == |links|
    ensures forall i :: 0 <= i < |links| ==> lines[i] == NavLine(links[i])
  {
    if links == [] then [] else [NavLine(links[0])] + NavLines(links[1..])
  }

  /** `chr(10).join(nav_links)`. */
  function NavBlock(links: seq<NavLink>): string
  {
    Join(NavLines(links), '\n')
  }

  lemma NotInConcat(c: char, a: string, b: string, d: string)
    requires c !in a && c !in b && c !in d
    ensures c !in a + b + d
  {
  }

  /** The asset entry is one line when its reference is. */
  lemma AssetLineOneLine(url: string)
    requires '\n' !in url
    ensures '\n' !in NavLine(AssetDoc(url))
  {
    NotInConcat('\n', "- [IOC Asset Documentation](", url, ")");
  }

  /** The process-variable entry is one line whatever its count. */
  lemma PvLineOneLine(n: nat)
    ensures '\n' !in NavLine(ProcessVariables(n))
  {
    var d := Decimal(n);
    assert '\n' !in d by {
      forall k | 0 <= k < |d|
        ensures d[k] != '\n'
      {
        assert '0' <= d[k] <= '9';
      }
    }
    NotInConcat('\n', "- [Process Variables (", d, ")](#pvlist)");
  }

  /** An entry renders as a single line, provided the asset reference holds no newline. */
  lemma NavLineOneLine(l: NavLink)
    requires l.AssetDoc? ==> '\n' !in l.url
    ensures '\n' !in NavLine(l)
  {
    match l
    case AssetDoc(url) => AssetLineOneLine(url);
    case ProcessVariables(n) => PvLineOneLine(n);
    case StartLog =>
    case YamlConfig =>
    case StCmd =>
  }

  /** Each navigation entry is one line of the rendered block, in order. */
  lemma NavBlockLines(links: seq<NavLink>, asset: string, yaml: string, stcmd: string, pvlist: string, pvCount: nat)
    requires '\n' !in asset
    requires NavFor(links, asset, yaml, stcmd, pvlist, pvCount)
    ensures SplitOn(NavBlock(links), '\n') == NavLines(links)
  {
    var lines := NavLines(links);
    forall i | 0 <= i < |lines|
      ensures '\n' !in lines[i]
    {
      assert Expected(links[i], asset, yaml, stcmd, pvlist, pvCount);
      NavLineOneLine(links[i]);
    }
    assert StartLog in links;
    SplitJoin(lines, '\n');
  }

  // ---------------------------------------------------------------- pages

  /** The text of the files an IOC directory holds; a missing file is the empty text. */
  datatype IocFiles = IocFiles(startLog: string, yaml: string, stcmd: string, pvlist: string)

  /** What a device page is built from: front-matter fields, navigation and section contents. */
  datatype IocPage = IocPage(
    name: string,
    devgroup: string,
    asset: string,
    startLog: string,
    description: string,
    nav: seq<NavLink>,
    yaml: string,
    stcmd: string,
    pvlist: string,
    pvCount: nat)

  /** The device page `main` writes for `name`. */
  predicate PageFor(page: IocPage, name: string, files: IocFiles, iocs: seq<IocEntry>) {
    var metadata := MetadataOf(FileLines(files.startLog));
    && page.name == name
    && page.devgroup == DevGroup(metadata)
    && page.asset == Asset(metadata)
    && page.startLog == Linkify(files.startLog)
    && page.description == IocDescription(iocs, name)
    && page.pvCount == PvCount(files.pvlist)
    && page.yaml == files.yaml && page.stcmd == files.stcmd && page.pvlist == files.pvlist
    && NavFor(page.nav, page.asset, files.yaml, files.stcmd, files.pvlist, page.pvCount)
  }

  /** The body of `main`'s loop over IOC directories, without the file I/O. */
  method BuildIocPage(name: string, files: IocFiles, iocs: seq<IocEntry>) returns (page: IocPage)
    ensures PageFor(page, name, files, iocs)
  {
    var metadata := ExtractMetadata(files.startLog);
    var devgroup := DevGroup(metadata);
    var asset := Asset(metadata);
    var startLog := Linkify(files.startLog);
    var pvCount := PvCount(files.pvlist);
    var description := IocDescription(iocs, name);
    var nav := NavLinks(asset, files.yaml, files.stcmd, files.pvlist, pvCount);
    page := IocPage(name, devgroup, asset, startLog, description, nav, files.yaml, files.stcmd, files.pvlist, pvCount);
  }

  /** On every device page the joined navigation block splits back into its entries, one per line. */
  lemma PageNavBlock(page: IocPage, name: string, files: IocFiles, iocs: seq<IocEntry>)
    requires PageFor(page, name, files, iocs)
    ensures SplitOn(NavBlock(page.nav), '\n') == NavLines(page.nav)
  {
    AssetOneLine(files.startLog);
    NavBlockLines(page.nav, page.asset, files.yaml, files.stcmd, files.pvlist, page.pvCount);
  }

  /** What a service page is built from. */
  datatype ServicePage = ServicePage(name: string, connection: Connection, description: string)

  function ServicePageOf(s: Service): ServicePage
  {
    ServicePage(s.name, ConnectionOf(s), ServiceDescription(s.config))
  }

  /** The files of a listed directory, all missing when the listing has none recorded. */
  function FilesOf(files: map<string, IocFiles>, name: string): IocFiles
  {
    if name in files then files[name] else IocFiles("", "", "", "")
  }

  /** The services `main` writes pages for: none without a values file. */
  function ServicesOf(values: Option<Values>): seq<Service>
  {
    match values
    case None => []
    case Some(v) => Selection(v.beamline, v.namespace, v.services)
  }

  function IocsOf(values: Option<Values>): seq<IocEntry>
  {
    match values
    case None => []
    case Some(v) => v.iocs
  }

  /**
   * `main`: one device page per processed directory, in listing order, and one service
   * page per listed service. With a values file that names IOCs, no page is written for
   * a directory it does not name.
   */
  method Generate(values: Option<Values>, listing: seq<string>, files: map<string, IocFiles>)
    returns (pages: seq<IocPage>, servicePages: seq<ServicePage>)
    ensures var dirs := FilterIocs(listing, AllowedIocs(values));
      && |pages| == |dirs|
      && forall i :: 0 <= i < |pages| ==> PageFor(pages[i], dirs[i], FilesOf(files, dirs[i]), IocsOf(values))
    ensures values.Some? && values.value.iocs != [] ==>
      forall i :: 0 <= i < |pages| ==> pages[i].name in IocNames(values.value.iocs) && pages[i].name in listing
    ensures |servicePages| == |ServicesOf(values)|
    ensures forall i :: 0 <= i < |servicePages| ==> servicePages[i] == ServicePageOf(ServicesOf(values)[i])
  {
    var allowed: Option<seq<string>> := None;
    var iocs: seq<IocEntry> := [];
    var services: seq<Service> := [];
    if values.Some? {
      allowed := Some(IocNames(values.value.iocs));
      iocs := values.value.iocs;
      services := LoadServices(values.value);
    }
    var dirs := FilterIocs(listing, allowed);
    pages := [];
    for i := 0 to |dirs|
      invariant |pages| == i
      invariant forall k :: 0 <= k < i ==> PageFor(pages[k], dirs[k], FilesOf(files, dirs[k]), iocs)
    {
      var page := BuildIocPage(dirs[i], FilesOf(files, dirs[i]), iocs);
      pages := pages + [page];
    }
    if values.Some? && values.value.iocs != [] {
      forall i | 0 <= i < |pages|
        ensures pages[i].name in IocNames(values.value.iocs) && pages[i].name in listing
      {
        assert dirs[i] in dirs;
        FilterIocsMembers(listing, allowed, dirs[i]);
      }
    }
    servicePages := [];
    for i := 0 to |services|
      invariant |servicePages| == i
      invariant forall k :: 0 <= k < i ==> servicePages[k] == ServicePageOf(services[k])
    {
      var s := services[i];
      servicePages := servicePages + [ServicePage(s.name, ConnectionOf(s), ServiceDescription(s.config))];
    }
  }
}
