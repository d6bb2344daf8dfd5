/**
 cookie-sync: the target list, one pass over all targets, and the combined jar.
 */
module SyncAll {
  import opened Cookies
  import opened Disks
  import opened Tables
  import opened Upload
  import opened Netscape
  import opened Sync

  // ------------------------------------------------------------------ the target list

  datatype Item = Item(scope: Scope, path: string)

  function IndexOf(s: string, c: char): (i: int)
    ensures -1 <= i < |s|
    ensures i >= 0 ==> s[i] == c && forall j | 0 <= j < i :: s[j] != c
    ensures i == -1 ==> forall j | 0 <= j < |s| :: s[j] != c
  {
    if s == [] then -1 else if s[0] == c then 0 else
      var i := IndexOf(s[1..], c);
      if i == -1 then -1 else i + 1
  }

  /** ^[a-z0-9][a-z0-9_-]{0,31}$ */
  predicate ValidProvider(provider: string) {
    && 1 <= |provider| <= 32
    && LowerOrDigit(provider[0])
    && forall i | 1 <= i < |provider| :: LowerOrDigit(provider[i]) || provider[i] == '_' || provider[i] == '-'
  }

  function ParseScope(value: string): Option<Scope> {
    var parts := Split(value, '/');
    if |parts| > 2 || !ValidProvider(parts[0]) then None else
      var profile := if |parts| == 2 then parts[1] else "default";
      if ValidProfile(profile) then Some(Scope(parts[0], profile)) else None
  }

  predicate IsAbs(path: string) {
    path != "" && path[0] == '/'
  }

  /** One comma-separated item; clean is filepath.Clean. */
  function ParseItem(item: string, clean: string -> string): Option<Item> {
    var eq := IndexOf(item, '=');
    if eq < 0 then None else
      var path := Trim(item[eq + 1..]);
      match ParseScope(Trim(item[..eq]))
      case None => None
      case Some(scope) =>
        if !IsAbs(path) || clean(path) == "/" then None else Some(Item(scope, clean(path)))
  }

  /** Two targets that can share no scope, cookie file or sidecar. */
  predicate Apart(a: Item, b: Item) {
    a.scope != b.scope && a.path != b.path && MetadataPath(a.path) != b.path && a.path != MetadataPath(b.path)
  }

  predicate ApartFrom(items: seq<Item>, item: Item) {
    items == [] || (ApartFrom(items[..|items|-1], item) && Apart(items[|items|-1], item))
  }

  predicate AllApart(items: seq<Item>) {
    items == [] || (AllApart(items[..|items|-1]) && ApartFrom(items[..|items|-1], items[|items|-1]))
  }

  lemma {:induction false} ApartFromAt(items: seq<Item>, item: Item, i: int)
    requires 0 <= i < |items| && ApartFrom(items, item)
    ensures Apart(items[i], item)
  {
    if i < |items| - 1 { ApartFromAt(items[..|items|-1], item, i); }
  }

  lemma {:induction false} AllApartAt(items: seq<Item>, i: int, j: int)
    requires 0 <= i < j < |items| && AllApart(items)
    ensures Apart(items[i], items[j])
  {
    if j == |items| - 1 {
      ApartFromAt(items[..j], items[j], i);
    } else {
      AllApartAt(items[..|items|-1], i, j);
    }
  }

  lemma {:induction false} NotApartFrom(items: seq<Item>, item: Item) returns (i: int)
    requires !ApartFrom(items, item)
    ensures 0 <= i < |items| && !Apart(items[i], item)
  {
    i := |items| - 1;
    if Apart(items[i], item) { i := NotApartFrom(items[..i], item); }
  }

  ghost predicate Collide(parts: seq<string>, parse: string -> Option<Item>, i: int, j: int)
    requires 0 <= i < j < |parts|
  {
    parse(parts[i]).Some? && parse(parts[j]).Some? && !Apart(parse(parts[i]).value, parse(parts[j]).value)
  }

  /** The list parses to these items, or is refused for a reason that is really there. */
  ghost predicate Collected(parts: seq<string>, parse: string -> Option<Item>, out: Option<seq<Item>>) {
    match out
    case Some(items) =>
      AllApart(items) && |items| == |parts| && forall i | 0 <= i < |parts| :: parse(parts[i]) == Some(items[i])
    case None =>
      || (exists i | 0 <= i < |parts| :: parse(parts[i]) == None)
      || (exists i, j | 0 <= i < j < |parts| :: Collide(parts, parse, i, j))
  }

  /** The scopes and paths that earlier items have taken. */
  function Scopes(items: seq<Item>): set<Scope> {
    if items == [] then {} else Scopes(items[..|items|-1]) + {items[|items|-1].scope}
  }

  function Paths(items: seq<Item>): set<string> {
    if items == [] then {} else Paths(items[..|items|-1]) + {items[|items|-1].path}
  }

  predicate Taken(item: Item, scopes: set<Scope>, paths: set<string>) {
    || item.scope in scopes || item.path in paths || MetadataPath(item.path) in paths
    || exists existing | existing in paths :: MetadataPath(existing) == item.path
  }

  lemma TakenSplits(item: Item, scopes: set<Scope>, paths: set<string>, other: Item)
    ensures Taken(item, scopes + {other.scope}, paths + {other.path}) <==> Taken(item, scopes, paths) || !Apart(other, item)
  {
    assert other.path in paths + {other.path};
  }

  lemma {:induction false} TakenIsNotApart(items: seq<Item>, item: Item)
    ensures Taken(item, Scopes(items), Paths(items)) <==> !ApartFrom(items, item)
  {
    if items != [] {
      TakenIsNotApart(items[..|items|-1], item);
      TakenSplits(item, Scopes(items[..|items|-1]), Paths(items[..|items|-1]), items[|items|-1]);
    }
  }

  method Collect(parts: seq<string>, parse: string -> Option<Item>) returns (out: Option<seq<Item>>)
    ensures Collected(parts, parse, out)
  {
    var items: seq<Item> := [];
    var scopes: set<Scope> := {};
    var paths: set<string> := {};
    for n := 0 to |parts|
      invariant |items| == n && AllApart(items) && scopes == Scopes(items) && paths == Paths(items)
      invariant forall i | 0 <= i < n :: parse(parts[i]) == Some(items[i])
    {
      var item := parse(parts[n]);
      if item == None {
        return None;
      }
      TakenIsNotApart(items, item.value);
      if Taken(item.value, scopes, paths) {
        ghost var i := NotApartFrom(items, item.value);
        assert Collide(parts, parse, i, n);
        return None;
      }
      scopes, paths := scopes + {item.value.scope}, paths + {item.value.path};
      assert (items + [item.value])[..n] == items;
      items := items + [item.value];
    }
    out := Some(items);
  }

  /** The target list is accepted exactly when it is not blank, every item parses, and no two collide. */
  method ParseTargets(raw: string, clean: string -> string) returns (out: Option<seq<Item>>)
    ensures if Trim(raw) == "" then out == None
            else Collected(Split(raw, ','), item => ParseItem(item, clean), out)
  {
    if Trim(raw) == "" {
      return None;
    }
    out := Collect(Split(raw, ','), item => ParseItem(item, clean));
  }

  /** The combined jar must be an absolute file that is no target and no sidecar. */
  predicate CombinedAllowed(path: string, clean: string -> string, items: seq<Item>) {
    path == "" ||
    (IsAbs(path) && clean(path) != "/"
     && forall i | 0 <= i < |items| :: items[i].path != clean(path) && MetadataPath(items[i].path) != clean(path))
  }

  /** The files that a target writes. */
  function Outputs(item: Item): set<string> {
    {item.path, MetadataPath(item.path)}
  }

  /** Two targets are apart exactly when they have different scopes and share no file. */
  lemma ApartExactly(a: Item, b: Item)
    ensures Apart(a, b) <==> a.scope != b.scope && Outputs(a) !! Outputs(b)
  {
    assert |MetadataPath(a.path)| == |a.path| + 10 && |MetadataPath(b.path)| == |b.path| + 10;
    if MetadataPath(a.path) == MetadataPath(b.path) {
      assert MetadataPath(a.path)[..|a.path|] == a.path && MetadataPath(b.path)[..|b.path|] == b.path;
    }
    if Apart(a, b) {
      forall p | p in Outputs(a) ensures p !in Outputs(b) {}
    } else if a.scope != b.scope {
      assert a.path in Outputs(a) && MetadataPath(a.path) in Outputs(a);
      assert b.path in Outputs(b) && MetadataPath(b.path) in Outputs(b);
    }
  }

  /** The combined path is refused exactly when it is no absolute file or is an output of a target. */
  lemma CombinedAllowedExactly(path: string, clean: string -> string, items: seq<Item>)
    ensures CombinedAllowed(path, clean, items) <==>
      path == "" || (path[0] == '/' && clean(path) != "/" && forall i | 0 <= i < |items| :: clean(path) !in Outputs(items[i]))
  {
  }

  lemma NoSlash(scope: Scope)
    requires ValidProvider(scope.provider) && ValidProfile(scope.profile)
    ensures Without(scope.provider, '/') && Without(scope.profile, '/')
  {
  }

  lemma {:induction false} SplitGivesBack(s: string, sep: char)
    ensures |Split(s, sep)| == 1 ==> s == Split(s, sep)[0]
    ensures |Split(s, sep)| == 2 ==> s == Split(s, sep)[0] + [sep] + Split(s, sep)[1]
  {
    if s != [] {
      SplitGivesBack(s[1..], sep);
      assert s == [s[0]] + s[1..];
    }
  }

  /** A scope is written provider/profile, or provider alone for the default profile. */
  lemma ParseScopeExactly(value: string, scope: Scope)
    ensures ParseScope(value) == Some(scope) <==>
      && ValidProvider(scope.provider) && ValidProfile(scope.profile)
      && (value == scope.provider + "/" + scope.profile || (value == scope.provider && scope.profile == "default"))
  {
    SplitGivesBack(value, '/');
    if ValidProvider(scope.provider) && ValidProfile(scope.profile) {
      NoSlash(scope);
      SplitWhole(scope.provider, '/');
      SplitWhole(scope.profile, '/');
      SplitFirst(scope.provider, '/', scope.profile);
      assert scope.provider + "/" + scope.profile == scope.provider + ['/'] + scope.profile;
    }
  }

  /** An item is scope=path: the scope ends at the first equals sign, both parts are trimmed, and the path is an absolute
      one and is cleaned. */
  lemma ParseItemExactly(left: string, right: string, clean: string -> string, out: Item)
    requires Without(left, '=')
    ensures ParseItem(left + "=" + right, clean) == Some(out) <==>
      && ParseScope(Trim(left)) == Some(out.scope)
      && Trim(right) != "" && Trim(right)[0] == '/' && clean(Trim(right)) == out.path && out.path != "/"
    ensures ParseItem(left, clean) == None
  {
    var item := left + "=" + right;
    var eq := IndexOf(item, '=');
    assert item[|left|] == '=' && forall j | 0 <= j < |left| :: item[j] == left[j];
    assert eq == |left|;
    assert item[..eq] == left && item[eq + 1..] == right;
  }

  // ------------------------------------------------------------------ the combined jar

  /** The bytes after the first line. */
  function AfterFirstLine(text: string): string {
    text[IndexOf(text, '\n') + 1..]
  }

  function Concat(texts: seq<string>): string {
    if texts == [] then "" else texts[0] + Concat(texts[1..])
  }

  function Tails(contents: seq<string>): seq<string> {
    Map(AfterFirstLine, contents)
  }

  /** One header line, then every content after its own header, in order; nothing for no content. */
  function Jar(contents: seq<string>): string {
    if contents == [] then "" else FIRST_LINE + "\n" + Concat(Tails(contents))
  }

  lemma ValidSplits(text: string)
    requires ValidCookieFile(text)
    ensures IndexOf(text, '\n') == |FIRST_LINE|
    ensures text == FIRST_LINE + "\n" + AfterFirstLine(text)
  {
    HeaderLines();
    assert text[..|FIRST_LINE| + 1] == FIRST_LINE + "\n";
    assert forall i | 0 <= i < |FIRST_LINE| :: text[i] == (FIRST_LINE + "\n")[i];
    assert text[|FIRST_LINE|] == '\n';
  }

  lemma {:induction false} ConcatAppend(texts: seq<string>, last: string)
    ensures Concat(texts + [last]) == Concat(texts) + last
  {
    if texts == [] {
      assert Concat([last]) == last + Concat([]);
    } else {
      ConcatAppend(texts[1..], last);
      assert (texts + [last])[1..] == texts[1..] + [last];
    }
  }

  lemma TailsAppend(contents: seq<string>, last: string)
    ensures Tails(contents + [last]) == Tails(contents) + [AfterFirstLine(last)]
  {
  }

  lemma JarAppend(contents: seq<string>, last: string)
    requires ValidCookieFile(last)
    ensures Jar(contents + [last]) == if contents == [] then last else Jar(contents) + AfterFirstLine(last)
  {
    TailsAppend(contents, last);
    ConcatAppend(Tails(contents), AfterFirstLine(last));
    if contents == [] {
      ValidSplits(last);
      assert Concat([AfterFirstLine(last)]) == AfterFirstLine(last) + Concat([]);
      assert Tails([last]) == [AfterFirstLine(last)];
      assert contents + [last] == [last];
    } else {
      Associative(FIRST_LINE + "\n", Concat(Tails(contents)), AfterFirstLine(last));
    }
  }

  predicate Ended(text: string) {
    text == "" || text[|text|-1] == '\n'
  }

  /** The lines of a text whose last line is ended. */
  function Lines(text: string): seq<string> {
    Split(text, '\n')[..|Split(text, '\n')|-1]
  }

  lemma FirstOfLines(line: string, rest: string)
    requires Without(line, '\n')
    ensures Lines(line + ['\n'] + rest) == [line] + Lines(rest)
  {
    SplitFirst(line, '\n', rest);
    var r := Split(rest, '\n');
    assert ([line] + r)[..|r|] == [line] + r[..|r|-1];
  }

  lemma {:induction false} SplitEnded(a: string, b: string)
    requires Ended(a)
    ensures Lines(a + b) == Lines(a) + Lines(b)
    decreases |a|
  {
    if a == [] {
      assert a + b == b && Lines(a) == [];
    } else {
      var i := IndexOf(a, '\n');
      assert a[|a|-1] == '\n';
      var line, rest := a[..i], a[i + 1..];
      assert a == line + ['\n'] + rest && a + b == line + ['\n'] + (rest + b);
      FirstOfLines(line, rest);
      FirstOfLines(line, rest + b);
      SplitEnded(rest, b);
    }
  }

  function Flatten(lists: seq<seq<string>>): seq<string> {
    if lists == [] then [] else lists[0] + Flatten(lists[1..])
  }

  lemma {:induction false} ConcatLines(texts: seq<string>)
    requires forall i | 0 <= i < |texts| :: Ended(texts[i])
    ensures Lines(Concat(texts)) == Flatten(Map(Lines, texts))
  {
    if texts != [] {
      ConcatLines(texts[1..]);
      SplitEnded(texts[0], Concat(texts[1..]));
      assert Map(Lines, texts)[1..] == Map(Lines, texts[1..]);
    }
  }

  /** The lines of the jar are one header and then the lines of every target after its own header. */
  lemma JarLines(contents: seq<string>)
    requires contents != []
    requires forall i | 0 <= i < |contents| :: ValidCookieFile(contents[i]) && Ended(contents[i])
    ensures Lines(Jar(contents)) == [FIRST_LINE] + Flatten(Map(Lines, Tails(contents)))
  {
    var tails := Tails(contents);
    forall i | 0 <= i < |tails| ensures Ended(tails[i]) {
      ValidSplits(contents[i]);
    }
    ConcatLines(tails);
    var head := FIRST_LINE + "\n";
    SplitEnded(head, Concat(tails));
    HeaderLines();
    assert head == FIRST_LINE + ['\n'] + "";
    SplitFirst(FIRST_LINE, '\n', "");
    assert Split(head, '\n') == [FIRST_LINE] + [""];
  }

  // ------------------------------------------------------------------ one pass

  /** lastGoodContent: what is remembered, or else a valid file on disk; "" when there is neither. */
  function LastGood(trust: Trust, path: string, disk: Disk, readable: bool): string {
    if ValidCookieFile(trust.content) then trust.content
    else if readable && path in disk && disk[path].Bytes? && ValidCookieFile(disk[path].text) then disk[path].text
    else ""
  }

  /** The contents that enter the jar: the empty ones are left out. */
  function NonEmpty(goods: seq<string>): seq<string> {
    if goods == [] then [] else
      var rest := NonEmpty(goods[..|goods|-1]);
      if goods[|goods|-1] == "" then rest else rest + [goods[|goods|-1]]
  }

  lemma {:induction false} NonEmptyAreValid(goods: seq<string>)
    requires forall i | 0 <= i < |goods| :: goods[i] == "" || ValidCookieFile(goods[i])
    ensures forall i | 0 <= i < |NonEmpty(goods)| :: ValidCookieFile(NonEmpty(goods)[i])
  {
    if goods != [] { NonEmptyAreValid(goods[..|goods|-1]); }
  }

  /** One target of a pass: where it goes, what is remembered, what the server and the files will do. */
  datatype Job = Job(dest: Dest, trust: Trust, answers: seq<Response>, io: Io)

  datatype Pass = Pass(disk: Disk, results: seq<Fetched>)

  /** The fetches of a pass, one after the other. */
  function PassRun(jobs: seq<Job>, disk: Disk): (p: Pass)
    ensures |p.results| == |jobs|
  {
    if jobs == [] then Pass(disk, []) else
      var before := PassRun(jobs[..|jobs|-1], disk);
      var job := jobs[|jobs|-1];
      var f := FetchRun(job.dest, job.trust, before.disk, job.answers, job.io);
      Pass(f.disk, before.results + [f])
  }

  function Goods(jobs: seq<Job>, p: Pass): (goods: seq<string>)
    requires |jobs| == |p.results|
    ensures |goods| == |jobs|
    ensures forall i | 0 <= i < |goods| :: goods[i] == "" || ValidCookieFile(goods[i])
    ensures forall i | 0 <= i < |goods| ::
      goods[i] == LastGood(p.results[i].trust, jobs[i].dest.path, p.disk, jobs[i].io.cookieReadable)
  {
    seq(|jobs|, i requires 0 <= i < |jobs| =>
      LastGood(p.results[i].trust, jobs[i].dest.path, p.disk, jobs[i].io.cookieReadable))
  }

  /** The files at the end of the pass: the jar is written when it is asked for and not empty. */
  function FinalDisk(jobs: seq<Job>, p: Pass, combined: string, w: Write): Disk
    requires |jobs| == |p.results|
  {
    var contents := NonEmpty(Goods(jobs, p));
    if combined == "" || contents == [] then p.disk else AfterWrite(p.disk, combined, Bytes(Jar(contents)), w)
  }

  function Items(jobs: seq<Job>): seq<Item> {
    Map((job: Job) => Item(job.dest.scope, job.dest.path), jobs)
  }

  ghost predicate InStep(dest: Dest, trust: Trust, disk: Disk) {
    CookieMatches(dest, trust, disk) && SidecarMatches(dest, trust, disk)
  }

  /** Every target of a pass is fetched, in order, on the files that the ones before it left, whatever came of them. */
  lemma {:induction false} EachIsFetched(jobs: seq<Job>, disk: Disk, i: int)
    requires 0 <= i < |jobs|
    ensures PassRun(jobs, disk).results[i]
         == FetchRun(jobs[i].dest, jobs[i].trust, PassRun(jobs[..i], disk).disk, jobs[i].answers, jobs[i].io)
    decreases |jobs|
  {
    var last := |jobs| - 1;
    PassGrows(jobs, disk);
    if i < last {
      EachIsFetched(jobs[..last], disk, i);
      assert jobs[..last][..i] == jobs[..i];
    }
  }

  lemma PassGrows(jobs: seq<Job>, disk: Disk)
    requires jobs != []
    ensures var job, before := jobs[|jobs|-1], PassRun(jobs[..|jobs|-1], disk);
            PassRun(jobs, disk).results == before.results + [FetchRun(job.dest, job.trust, before.disk, job.answers, job.io)]
  {
  }

  /** What the last fetch of a pass does. */
  lemma LastFetch(jobs: seq<Job>, disk: Disk)
    requires jobs != []
    ensures var last := |jobs| - 1;
            var before, after := PassRun(jobs[..last], disk), PassRun(jobs, disk);
            && after.results[..last] == before.results
            && OthersKept(jobs[last].dest, before.disk, after.disk)
            && (after.results[last].ok ==> InStep(jobs[last].dest, after.results[last].trust, after.disk))
  {
    var job := jobs[|jobs| - 1];
    FetchIsSafe(job.dest, job.trust, PassRun(jobs[..|jobs| - 1], disk).disk, job.answers, job.io);
  }

  lemma EarlierApart(jobs: seq<Job>)
    requires AllApart(Items(jobs)) && jobs != []
    ensures AllApart(Items(jobs[..|jobs|-1]))
  {
    assert Items(jobs[..|jobs|-1]) == Items(jobs)[..|jobs|-1];
  }

  /** The last fetch of a pass keeps an earlier target in step. */
  lemma LastFetchKeeps(jobs: seq<Job>, disk: Disk, i: int)
    requires AllApart(Items(jobs)) && 0 <= i < |jobs| - 1
    requires var before := PassRun(jobs[..|jobs|-1], disk); InStep(jobs[i].dest, before.results[i].trust, before.disk)
    ensures var after := PassRun(jobs, disk); InStep(jobs[i].dest, after.results[i].trust, after.disk)
  {
    var last := |jobs| - 1;
    var before, after := PassRun(jobs[..last], disk), PassRun(jobs, disk);
    LastFetch(jobs, disk);
    assert after.results[i] == after.results[..last][i] == before.results[i];
    AllApartAt(Items(jobs), i, last);
    StaysInStep(jobs[i].dest, before.results[i].trust, jobs[last].dest, before.disk, after.disk);
  }

  lemma {:induction false} LaterFetchesKeep(jobs: seq<Job>, disk: Disk, i: int)
    requires AllApart(Items(jobs)) && 0 <= i < |jobs| && PassRun(jobs, disk).results[i].ok
    ensures InStep(jobs[i].dest, PassRun(jobs, disk).results[i].trust, PassRun(jobs, disk).disk)
    decreases |jobs|
  {
    var last := |jobs| - 1;
    LastFetch(jobs, disk);
    if i < last {
      assert PassRun(jobs, disk).results[i] == PassRun(jobs, disk).results[..last][i];
      EarlierApart(jobs);
      LaterFetchesKeep(jobs[..last], disk, i);
      LastFetchKeeps(jobs, disk, i);
    }
  }

  lemma StaysInStep(d: Dest, trust: Trust, other: Dest, before: Disk, after: Disk)
    requires InStep(d, trust, before) && OthersKept(other, before, after)
    requires Apart(Item(d.scope, d.path), Item(other.scope, other.path))
    ensures InStep(d, trust, after)
  {
    assert MetadataPath(d.path) != MetadataPath(other.path) by {
      assert MetadataPath(d.path)[..|d.path|] == d.path;
      assert MetadataPath(other.path)[..|other.path|] == other.path;
    }
    assert d.path in before && after[d.path] == before[d.path];
  }

  /** The file that the combined path names, "" when there is none. */
  function JarPath(combined: string, clean: string -> string): string {
    if combined == "" then "" else clean(combined)
  }

  /** No output of a pass overwrites another: for every accepted target list and combined path, every
      target whose fetch succeeded still has file and sidecar equal to its memory when the whole pass,
      with the combined jar, is over. */
  lemma NothingOverwritten(jobs: seq<Job>, disk: Disk, combined: string, clean: string -> string, w: Write, i: int)
    requires AllApart(Items(jobs)) && CombinedAllowed(combined, clean, Items(jobs))
    requires 0 <= i < |jobs| && PassRun(jobs, disk).results[i].ok
    ensures InStep(jobs[i].dest, PassRun(jobs, disk).results[i].trust,
                   FinalDisk(jobs, PassRun(jobs, disk), JarPath(combined, clean), w))
  {
    LaterFetchesKeep(jobs, disk, i);
    if JarPath(combined, clean) != "" {
      assert Items(jobs)[i].path != clean(combined) && MetadataPath(Items(jobs)[i].path) != clean(combined);
      JarIsElsewhere(jobs, PassRun(jobs, disk), clean(combined), w, jobs[i].dest, PassRun(jobs, disk).results[i].trust);
    }
  }

  lemma JarIsElsewhere(jobs: seq<Job>, p: Pass, combined: string, w: Write, d: Dest, trust: Trust)
    requires |jobs| == |p.results| && InStep(d, trust, p.disk)
    requires combined != d.path && combined != MetadataPath(d.path)
    ensures InStep(d, trust, FinalDisk(jobs, p, combined, w))
  {
    var after := FinalDisk(jobs, p, combined, w);
    assert forall path | path != combined && path in p.disk :: path in after && after[path] == p.disk[path];
  }

  /** A jar that was written starts like a cookie file and holds every last-good content in target order. */
  lemma JarOfPass(jobs: seq<Job>, disk: Disk, combined: string)
    requires combined != "" && NonEmpty(Goods(jobs, PassRun(jobs, disk))) != []
    ensures var contents := NonEmpty(Goods(jobs, PassRun(jobs, disk)));
            var after := FinalDisk(jobs, PassRun(jobs, disk), combined, Written);
            && after[combined] == Bytes(Jar(contents)) && ValidCookieFile(Jar(contents))
            && (forall k | 0 <= k < |contents| :: ValidCookieFile(contents[k]))
            && ((forall k | 0 <= k < |contents| :: Ended(contents[k])) ==>
                  Lines(Jar(contents)) == [FIRST_LINE] + Flatten(Map(Lines, Tails(contents))))
  {
    var contents := NonEmpty(Goods(jobs, PassRun(jobs, disk)));
    NonEmptyAreValid(Goods(jobs, PassRun(jobs, disk)));
    var first := FIRST_LINE + "\n";
    assert Jar(contents)[..|first|] == first;
    if forall k | 0 <= k < |contents| :: Ended(contents[k]) { JarLines(contents); }
  }

  /** What a target has to give to the jar: what is remembered of it, or else a valid file of it, or nothing. */
  ghost predicate Gives(job: Job, f: Fetched, disk: Disk, good: string) {
    var path := job.dest.path;
    if ValidCookieFile(f.trust.content) then good == f.trust.content
    else if job.io.cookieReadable && path in disk && disk[path].Bytes? && ValidCookieFile(disk[path].text)
    then good == disk[path].text
    else good == ""
  }

  lemma {:induction false} FlattenAppend(lists: seq<seq<string>>, last: seq<string>)
    ensures Flatten(lists + [last]) == Flatten(lists) + last
  {
    if lists == [] {
      assert lists + [last] == [last] && Flatten([last]) == last + Flatten([]);
    } else {
      FlattenAppend(lists[1..], last);
      assert (lists + [last])[1..] == lists[1..] + [last];
    }
  }

  function TailLines(goods: seq<string>): seq<string> {
    Flatten(Map(Lines, Tails(goods)))
  }

  lemma TailLinesAppend(goods: seq<string>, last: string)
    ensures TailLines(goods + [last]) == TailLines(goods) + Lines(AfterFirstLine(last))
  {
    TailsAppend(goods, last);
    assert Map(Lines, Tails(goods) + [AfterFirstLine(last)]) == Map(Lines, Tails(goods)) + [Lines(AfterFirstLine(last))];
    FlattenAppend(Map(Lines, Tails(goods)), Lines(AfterFirstLine(last)));
  }

  /** Targets that give nothing add no lines. */
  lemma {:induction false} EmptyGoodsAddNothing(goods: seq<string>)
    ensures TailLines(NonEmpty(goods)) == TailLines(goods)
  {
    if goods != [] {
      var init, last := goods[..|goods|-1], goods[|goods|-1];
      EmptyGoodsAddNothing(init);
      assert goods == init + [last];
      TailLinesAppend(init, last);
      TailLinesAppend(NonEmpty(init), last);
      if last == "" { assert Lines("") == []; }
    }
  }

  lemma {:induction false} NonEmptyKeeps(goods: seq<string>)
    ensures NonEmpty(goods) == [] <==> forall i | 0 <= i < |goods| :: goods[i] == ""
    ensures (forall i | 0 <= i < |goods| :: Ended(goods[i])) ==> forall i | 0 <= i < |NonEmpty(goods)| :: Ended(NonEmpty(goods)[i])
  {
    if goods != [] { NonEmptyKeeps(goods[..|goods|-1]); }
  }

  /** The jar told from what the targets give: with none there is no jar and nothing is written; else its lines are one
      header line and then, target by target, the lines of each after its own header. */
  lemma JarOfTargets(jobs: seq<Job>, disk: Disk, combined: string, goods: seq<string>)
    requires combined != "" && |goods| == |jobs|
    requires var p := PassRun(jobs, disk); forall i | 0 <= i < |jobs| :: Gives(jobs[i], p.results[i], p.disk, goods[i])
    requires forall i | 0 <= i < |goods| :: Ended(goods[i])
    ensures var p := PassRun(jobs, disk);
            var after := FinalDisk(jobs, p, combined, Written);
            if forall i | 0 <= i < |goods| :: goods[i] == "" then after == p.disk
            else
              && combined in after && after[combined].Bytes?
              && Lines(after[combined].text) == [FIRST_LINE] + TailLines(goods)
              && forall q | q != combined :: (q in after <==> q in p.disk) && (q in p.disk ==> after[q] == p.disk[q])
  {
    var p := PassRun(jobs, disk);
    GivenAreGoods(jobs, p, goods);
    JarOfGoods(jobs, p, combined);
  }

  lemma GivenAreGoods(jobs: seq<Job>, p: Pass, goods: seq<string>)
    requires |goods| == |jobs| == |p.results|
    requires forall i | 0 <= i < |jobs| :: Gives(jobs[i], p.results[i], p.disk, goods[i])
    ensures Goods(jobs, p) == goods
  {
    forall i | 0 <= i < |jobs| ensures Goods(jobs, p)[i] == goods[i] {
      assert Gives(jobs[i], p.results[i], p.disk, goods[i]);
    }
  }

  lemma JarOfGoods(jobs: seq<Job>, p: Pass, combined: string)
    requires |jobs| == |p.results| && combined != "" && forall i | 0 <= i < |jobs| :: Ended(Goods(jobs, p)[i])
    ensures var goods, after := Goods(jobs, p), FinalDisk(jobs, p, combined, Written);
            if forall i | 0 <= i < |goods| :: goods[i] == "" then after == p.disk
            else
              && combined in after && after[combined].Bytes?
              && Lines(after[combined].text) == [FIRST_LINE] + TailLines(goods)
              && forall q | q != combined :: (q in after <==> q in p.disk) && (q in p.disk ==> after[q] == p.disk[q])
  {
    var goods := Goods(jobs, p);
    NonEmptyKeeps(goods);
    FinalDiskIs(jobs, p, combined, Written);
    if NonEmpty(goods) != [] {
      NonEmptyAreValid(goods);
      EmptyGoodsAddNothing(goods);
      JarLines(NonEmpty(goods));
    }
  }

  /** The jobs the targets stand for now. */
  function JobsOf(targets: seq<Target>, answers: seq<seq<Response>>, ios: seq<Io>): (jobs: seq<Job>)
    requires |targets| == |answers| == |ios|
    reads targets
    ensures |jobs| == |targets|
    ensures forall i | 0 <= i < |jobs| :: jobs[i] == Job(targets[i].To(), targets[i].Memory(), answers[i], ios[i])
  {
    seq(|targets|, i requires 0 <= i < |targets| reads targets =>
      Job(targets[i].To(), targets[i].Memory(), answers[i], ios[i]))
  }

  /** Fetches every target, then writes the jar; a failure of one target does not stop the others. */
  method SyncAll(files: Files, targets: seq<Target>, answers: seq<seq<Response>>, ios: seq<Io>, combined: string, fate: Fate)
    returns (ok: seq<bool>, jarOk: bool)
    requires |targets| == |answers| == |ios|
    requires forall i, j | 0 <= i < j < |targets| :: targets[i] != targets[j]
    modifies files, targets
    ensures var jobs := old(JobsOf(targets, answers, ios));
            var p := PassRun(jobs, old(files.disk));
            && |ok| == |targets|
            && (forall i | 0 <= i < |targets| :: ok[i] == p.results[i].ok && targets[i].Memory() == p.results[i].trust)
            && files.disk == FinalDisk(jobs, p, combined, Outcome(fate))
            && (jarOk <==> combined == "" || NonEmpty(Goods(jobs, p)) == [] || Outcome(fate) == Written)
  {
    ghost var jobs := JobsOf(targets, answers, ios);
    ghost var start := files.disk;
    jarOk := true;
    ok := FetchAll(files, targets, answers, ios, jobs);
    if combined != "" {
      jarOk := WriteJar(files, targets, ios, jobs, PassRun(jobs, start), combined, fate);
    }
  }

  method FetchAll(files: Files, targets: seq<Target>, answers: seq<seq<Response>>, ios: seq<Io>, ghost jobs: seq<Job>)
    returns (ok: seq<bool>)
    requires |targets| == |answers| == |ios| && jobs == JobsOf(targets, answers, ios)
    requires forall i, j | 0 <= i < j < |targets| :: targets[i] != targets[j]
    modifies files, targets
    ensures var p := PassRun(jobs, old(files.disk));
            && files.disk == p.disk && |ok| == |targets|
            && forall i | 0 <= i < |targets| :: ok[i] == p.results[i].ok && targets[i].Memory() == p.results[i].trust
  {
    ok := [];
    ghost var start := files.disk;
    for n := 0 to |targets|
      invariant files.disk == PassRun(jobs[..n], start).disk && |ok| == n
      invariant forall i | 0 <= i < n :: Kept(targets[i], ok[i], PassRun(jobs[..n], start).results[i])
      invariant forall i | n <= i < |targets| :: targets[i].Memory() == jobs[i].trust
    {
      var fetched := FetchNth(files, targets, answers[n], ios[n], n, jobs, start);
      ok := ok + [fetched];
    }
    assert jobs[..|jobs|] == jobs;
  }

  ghost predicate Kept(t: Target, ok: bool, f: Fetched)
    reads t
  {
    ok == f.ok && t.Memory() == f.trust
  }

  method FetchNth(files: Files, targets: seq<Target>, answers: seq<Response>, io: Io, n: int, ghost jobs: seq<Job>, ghost start: Disk)
    returns (ok: bool)
    requires 0 <= n < |targets| == |jobs| && forall i | 0 <= i < |targets| && i != n :: targets[i] != targets[n]
    requires jobs[n] == Job(targets[n].To(), targets[n].Memory(), answers, io)
    requires files.disk == PassRun(jobs[..n], start).disk
    modifies files, targets[n]
    ensures files.disk == PassRun(jobs[..n + 1], start).disk
    ensures Kept(targets[n], ok, PassRun(jobs[..n + 1], start).results[n])
    ensures PassRun(jobs[..n + 1], start).results[..n] == PassRun(jobs[..n], start).results
    ensures forall i | 0 <= i < |targets| && i != n :: targets[i].Memory() == old(targets[i].Memory())
  {
    PassStep(jobs, start, n);
    var fetched, _ := targets[n].Fetch(files, answers, io);
    ok := fetched;
  }

  lemma PassStep(jobs: seq<Job>, disk: Disk, n: int)
    requires 0 <= n < |jobs|
    ensures var before := PassRun(jobs[..n], disk);
            var f := FetchRun(jobs[n].dest, jobs[n].trust, before.disk, jobs[n].answers, jobs[n].io);
            PassRun(jobs[..n + 1], disk) == Pass(f.disk, before.results + [f])
  {
    assert jobs[..n + 1][..n] == jobs[..n] && jobs[..n + 1][n] == jobs[n];
  }

  /** How the jar grows by one good. */
  lemma JarGrows(goods: seq<string>, n: int)
    requires 0 <= n < |goods| && (goods[n] == "" || ValidCookieFile(goods[n]))
    ensures var (before, after) := (NonEmpty(goods[..n]), NonEmpty(goods[..n + 1]));
            if goods[n] == "" then after == before
            else && |after| == |before| + 1 && IndexOf(goods[n], '\n') >= 0
                 && Jar(after) == if |before| == 0 then goods[n] else Jar(before) + AfterFirstLine(goods[n])
    ensures NonEmpty(goods[..n]) == [] ==> Jar(NonEmpty(goods[..n])) == ""
  {
    assert goods[..n + 1][..n] == goods[..n] && goods[..n + 1][n] == goods[n];
    if goods[n] != "" {
      JarAppend(NonEmpty(goods[..n]), goods[n]);
      ValidSplits(goods[n]);
    }
  }

  lemma FinalDiskIs(jobs: seq<Job>, p: Pass, combined: string, w: Write)
    requires |jobs| == |p.results| && combined != ""
    ensures var contents := NonEmpty(Goods(jobs, p));
            FinalDisk(jobs, p, combined, w) ==
              if |contents| == 0 then p.disk else AfterWrite(p.disk, combined, Bytes(Jar(contents)), w)
  {
  }

  method WriteJar(files: Files, targets: seq<Target>, ios: seq<Io>, ghost jobs: seq<Job>, ghost p: Pass,
                  combined: string, fate: Fate) returns (ok: bool)
    requires |targets| == |ios| == |jobs| == |p.results| && combined != ""
    requires files.disk == p.disk
    requires forall i | 0 <= i < |targets| ::
      jobs[i].dest == targets[i].To() && jobs[i].io == ios[i] && p.results[i].trust == targets[i].Memory()
    modifies files
    ensures files.disk == FinalDisk(jobs, p, combined, Outcome(fate))
    ensures ok <==> NonEmpty(Goods(jobs, p)) == [] || Outcome(fate) == Written
  {
    ok := true;
    var data := "";
    var included := 0;
    ghost var goods := Goods(jobs, p);
    for n := 0 to |targets|
      invariant files.disk == p.disk
      invariant data == Jar(NonEmpty(goods[..n])) && included == |NonEmpty(goods[..n])|
    {
      var content := LastGood(targets[n].Memory(), targets[n].path, files.disk, ios[n].cookieReadable);
      assert jobs[n].dest == targets[n].To();
      assert content == goods[n];
      JarGrows(goods, n);
      if content != "" {
        if included == 0 {
          data := data + content;
        } else if IndexOf(content, '\n') >= 0 {
          data := data + content[IndexOf(content, '\n') + 1..];
        }
        included := included + 1;
      }
    }
    assert goods[..|goods|] == goods;
    FinalDiskIs(jobs, p, combined, Outcome(fate));
    assert goods[..|targets|] == goods;
    if included > 0 {
      ghost var steps;
      ok, steps := files.AtomicWrite(combined, Bytes(data), fate);
    }
  }
}
