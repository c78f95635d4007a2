/** Filling a ticket's context with file contents under a token budget. */
module ContextBudget {
  import opened Basics

  const CHARS_PER_TOKEN_ESTIMATE := 4

  function EstimateTokens(text: string): nat {
    if text == "" then 0 else Max(1, |text| / CHARS_PER_TOKEN_ESTIMATE)
  }

  /** Four characters make a token, and what is left over at the end counts only when it is all there is. */
  lemma EstimateByLength(text: string, n: nat)
    ensures EstimateTokens(text) == n
      <==> if n == 0 then |text| == 0 else if n == 1 then 1 <= |text| <= 7 else 4 * n <= |text| <= 4 * n + 3
  {
  }

  /** Keeps as many characters as four times the budget, from the start of the text. */
  function TruncateToTokenBudget(text: string, tokenBudget: int): (r: string)
    ensures r <= text && |r| == Min(|text|, 4 * Max(0, tokenBudget))
  {
    if tokenBudget <= 0 then ""
    else
      var maxChars := tokenBudget * CHARS_PER_TOKEN_ESTIMATE;
      if |text| <= maxChars then text else text[..maxChars]
  }

  /** How tokens are counted and texts are cut. */
  datatype Measure = Measure(tokens: string -> nat, cut: (string, int) -> string)

  const ESTIMATE := Measure(EstimateTokens, TruncateToTokenBudget)

  /** Cutting keeps a prefix; a text that is too large is cut to exactly what is left. */
  predicate CutsExactly(m: Measure, text: string, left: int) {
    && m.cut(text, left) <= text
    && (m.tokens(text) > left ==> m.tokens(m.cut(text, left)) == Max(0, left))
  }

  ghost predicate Exact(m: Measure) {
    forall text, left :: CutsExactly(m, text, left)
  }

  lemma EstimateIsExact()
    ensures Exact(ESTIMATE)
  {
  }

  /** A file found by the related-context retrieval, or a target file that has been read. */
  datatype File = File(path: string, content: string)

  /** A file's contribution to the context, before it is redacted and wrapped. */
  datatype Snippet = Snippet(path: string, content: string, truncated: bool)

  datatype Reading = Text(content: string) | OutsideRepo | NoSuchFile

  datatype Injection =
    | Injected(files: seq<Snippet>, tokenEstimate: int)
    | Refused(path: string)
    | NotFound(path: string)

  datatype Fill = Fill(files: seq<Snippet>, used: int, remaining: int)

  function AddFile(m: Measure, fill: Fill, file: File): Fill {
    var fits := m.tokens(file.content) <= fill.remaining;
    var content := if fits then file.content else m.cut(file.content, fill.remaining);
    Fill(fill.files + [Snippet(file.path, content, !fits)],
         fill.used + m.tokens(content),
         Max(0, fill.remaining - m.tokens(content)))
  }

  /** The first k files are taken whatever is left. */
  function Fills(m: Measure, start: Fill, files: seq<File>, k: nat): Fill
    requires k <= |files|
  {
    if k == 0 then start else AddFile(m, Fills(m, start, files, k - 1), files[k - 1])
  }

  /** The first k files are taken as long as something is left. */
  function FillsWhileRoom(m: Measure, start: Fill, files: seq<File>, k: nat): Fill
    requires k <= |files|
  {
    if k == 0 then start
    else
      var fill := FillsWhileRoom(m, start, files, k - 1);
      if fill.remaining <= 0 then fill else AddFile(m, fill, files[k - 1])
  }

  function EmptyFill(maxTokens: int): Fill {
    Fill([], 0, maxTokens)
  }

  /** All target files, then related files while something is left. */
  function FillAll(m: Measure, targets: seq<File>, related: seq<File>, maxTokens: int): Fill {
    FillsWhileRoom(m, Fills(m, EmptyFill(maxTokens), targets, |targets|), related, |related|)
  }

  function Readings(paths: seq<string>, read: string -> Reading): seq<File> {
    seq(|paths|, i requires 0 <= i < |paths| =>
      File(paths[i], if read(paths[i]).Text? then read(paths[i]).content else ""))
  }

  /** The first target file that cannot be read decides the error. */
  function FirstUnreadable(paths: seq<string>, read: string -> Reading, k: nat): (i: nat)
    requires k <= |paths|
    ensures k <= i <= |paths|
    ensures i < |paths| ==> !read(paths[i]).Text?
    ensures forall j :: k <= j < i ==> read(paths[j]).Text?
    decreases |paths| - k
  {
    if k == |paths| || !read(paths[k]).Text? then k else FirstUnreadable(paths, read, k + 1)
  }

  function Injecting(m: Measure, targetFiles: seq<string>, related: seq<File>, read: string -> Reading, maxTokens: int)
    : Injection
  {
    var i := FirstUnreadable(targetFiles, read, 0);
    if i < |targetFiles| then
      if read(targetFiles[i]).OutsideRepo? then Refused(targetFiles[i]) else NotFound(targetFiles[i])
    else
      var fill := FillAll(m, Readings(targetFiles, read), related, maxTokens);
      Injected(fill.files, fill.used)
  }

  method Inject(targetFiles: seq<string>, related: seq<File>, read: string -> Reading, maxTokens: int)
    returns (result: Injection)
    ensures result == Injecting(ESTIMATE, targetFiles, related, read, maxTokens)
    ensures match result
            case Refused(path) => StopsAt(targetFiles, read, path) && read(path).OutsideRepo?
            case NotFound(path) => StopsAt(targetFiles, read, path) && read(path).NoSuchFile?
            case Injected(files, used) =>
              && (forall i :: 0 <= i < |targetFiles| ==> read(targetFiles[i]).Text?)
              && FilledWith(files, used, Readings(targetFiles, read), related, maxTokens)
  {
    result := InjectMeasured(ESTIMATE, targetFiles, related, read, maxTokens);
    if result.Injected? {
      FillsTheContext(Readings(targetFiles, read), related, maxTokens);
    } else {
      assert StopsAt(targetFiles, read, targetFiles[FirstUnreadable(targetFiles, read, 0)]);
    }
  }

  /** The path is that of the first target file that cannot be read. */
  predicate StopsAt(targetFiles: seq<string>, read: string -> Reading, path: string) {
    exists i :: 0 <= i < |targetFiles| && targetFiles[i] == path && !read(path).Text?
                && forall j :: 0 <= j < i ==> read(targetFiles[j]).Text?
  }

  /** A file's text, or as much of it as fits into so many tokens. */
  predicate Fitted(snippet: Snippet, file: File, left: int) {
    && snippet.path == file.path && snippet.content <= file.content
    && (snippet.truncated <==> EstimateTokens(file.content) > left)
    && |snippet.content| == if snippet.truncated then 4 * left else |file.content|
  }

  /** With a budget that is not negative, every target file is fitted into what the earlier ones have left, and
      every related file that finds something left into that. No more is used than the budget allows. */
  predicate FilledWith(snippets: seq<Snippet>, used: int, targets: seq<File>, related: seq<File>, maxTokens: int) {
    && used == Min(Max(0, maxTokens),
                   Wanted(ESTIMATE, targets, |targets|) + Wanted(ESTIMATE, related, |related|))
    && (maxTokens >= 0 ==> TargetsFitted(snippets, targets, maxTokens))
    && (maxTokens >= 0 ==> RelatedFitted(snippets, targets, related, maxTokens))
  }

  predicate TargetsFitted(snippets: seq<Snippet>, targets: seq<File>, maxTokens: nat) {
    |snippets| >= |targets|
      && forall i {:trigger snippets[i]} :: 0 <= i < |targets| ==>
           Fitted(snippets[i], targets[i], Max(0, maxTokens - Wanted(ESTIMATE, targets, i)))
  }

  predicate RelatedFitted(snippets: seq<Snippet>, targets: seq<File>, related: seq<File>, maxTokens: nat) {
    && |targets| <= |snippets|
    && SharesFit(snippets[|targets|..], related, Max(0, maxTokens - Wanted(ESTIMATE, targets, |targets|)), |related|)
  }

  /** The snippets of the first related files: all of the k files, or those before which something is left. */
  predicate SharesFit(r: seq<Snippet>, files: seq<File>, room: nat, k: nat)
    requires k <= |files|
  {
    && |r| <= k
    && (forall i {:trigger r[i]} :: 0 <= i < |r| ==>
          Wanted(ESTIMATE, files, i) < room && Fitted(r[i], files[i], room - Wanted(ESTIMATE, files, i)))
    && (|r| < k ==> Wanted(ESTIMATE, files, |r|) >= room)
  }

  method InjectMeasured(m: Measure, targetFiles: seq<string>, related: seq<File>, read: string -> Reading,
                        maxTokens: int)
    returns (result: Injection)
    ensures result == Injecting(m, targetFiles, related, read, maxTokens)
  {
    var files: seq<Snippet> := [];
    var remainingTokens := maxTokens;
    var usedTokens := 0;
    ghost var readings := Readings(targetFiles, read);
    var k := 0;
    while k < |targetFiles|
      invariant 0 <= k <= |targetFiles|
      invariant FirstUnreadable(targetFiles, read, 0) == FirstUnreadable(targetFiles, read, k)
      invariant Fill(files, usedTokens, remainingTokens) == Fills(m, EmptyFill(maxTokens), readings, k)
    {
      var path := targetFiles[k];
      var reading := read(path);
      if reading.OutsideRepo? {
        return Refused(path);
      }
      if reading.NoSuchFile? {
        return NotFound(path);
      }
      var content := reading.content;
      var truncated := false;
      var fileTokens := m.tokens(content);
      if fileTokens > remainingTokens {
        content := m.cut(content, remainingTokens);
        truncated := true;
        fileTokens := m.tokens(content);
      }
      files := files + [Snippet(path, content, truncated)];
      remainingTokens := Max(0, remainingTokens - fileTokens);
      usedTokens := usedTokens + fileTokens;
      k := k + 1;
    }
    files, usedTokens := InjectRelated(m, Fill(files, usedTokens, remainingTokens), related);
    return Injected(files, usedTokens);
  }

  method InjectRelated(m: Measure, start: Fill, related: seq<File>) returns (files: seq<Snippet>, usedTokens: int)
    ensures files == FillsWhileRoom(m, start, related, |related|).files
    ensures usedTokens == FillsWhileRoom(m, start, related, |related|).used
  {
    var remainingTokens := start.remaining;
    files, usedTokens := start.files, start.used;
    var k := 0;
    while k < |related|
      invariant 0 <= k <= |related|
      invariant Fill(files, usedTokens, remainingTokens) == FillsWhileRoom(m, start, related, k)
    {
      if remainingTokens <= 0 {
        NoRoomStays(m, start, related, k, |related|);
        return;
      }
      var content := related[k].content;
      var truncated := false;
      var fileTokens := m.tokens(content);
      if fileTokens > remainingTokens {
        content := m.cut(content, remainingTokens);
        truncated := true;
        fileTokens := m.tokens(content);
      }
      files := files + [Snippet(related[k].path, content, truncated)];
      remainingTokens := Max(0, remainingTokens - fileTokens);
      usedTokens := usedTokens + fileTokens;
      k := k + 1;
    }
  }

  lemma {:induction false} NoRoomStays(m: Measure, start: Fill, files: seq<File>, k: nat, n: nat)
    requires k <= n <= |files| && FillsWhileRoom(m, start, files, k).remaining <= 0
    ensures FillsWhileRoom(m, start, files, n) == FillsWhileRoom(m, start, files, k)
  {
    if n > k {
      NoRoomStays(m, start, files, k, n - 1);
    }
  }

  // ---------- Conservation ----------

  /** Tokens of the first k files, uncut. */
  function Wanted(m: Measure, files: seq<File>, k: nat): nat
    requires k <= |files|
  {
    if k == 0 then 0 else Wanted(m, files, k - 1) + m.tokens(files[k - 1].content)
  }

  lemma OneFileConserves(m: Measure, fill: Fill, file: File)
    requires Exact(m)
    ensures var after := AddFile(m, fill, file);
            && after.used + after.remaining == fill.used + Max(0, fill.remaining)
            && after.remaining == Max(0, fill.remaining - m.tokens(file.content))
  {
    assert CutsExactly(m, file.content, fill.remaining);
  }

  /** After k targets: what is used and what remains add up to the budget, and what remains is the budget
      less everything the k files wanted. */
  lemma {:induction false} TargetsConserve(m: Measure, files: seq<File>, maxTokens: int, k: nat)
    requires k <= |files| && Exact(m)
    ensures var fill := Fills(m, EmptyFill(maxTokens), files, k);
            && fill.used + Max(0, fill.remaining) == Max(0, maxTokens)
            && Max(0, fill.remaining) == Max(0, maxTokens - Wanted(m, files, k))
            && (maxTokens >= 0 ==> fill.remaining >= 0)
  {
    if k > 0 {
      TargetsConserve(m, files, maxTokens, k - 1);
      OneFileConserves(m, Fills(m, EmptyFill(maxTokens), files, k - 1), files[k - 1]);
    }
  }

  lemma {:induction false} RelatedConserve(m: Measure, start: Fill, files: seq<File>, k: nat)
    requires k <= |files| && Exact(m)
    ensures var fill := FillsWhileRoom(m, start, files, k);
            && fill.used + Max(0, fill.remaining) == start.used + Max(0, start.remaining)
            && Max(0, fill.remaining) == Max(0, Max(0, start.remaining) - Wanted(m, files, k))
  {
    if k > 0 {
      RelatedConserve(m, start, files, k - 1);
      OneFileConserves(m, FillsWhileRoom(m, start, files, k - 1), files[k - 1]);
    }
  }

  /** The tokens used are what all files together want, capped by the budget. */
  lemma UseIsCapped(m: Measure, targets: seq<File>, related: seq<File>, maxTokens: int)
    requires Exact(m)
    ensures FillAll(m, targets, related, maxTokens).used ==
      Min(Max(0, maxTokens), Wanted(m, targets, |targets|) + Wanted(m, related, |related|))
  {
    var start := Fills(m, EmptyFill(maxTokens), targets, |targets|);
    TargetsConserve(m, targets, maxTokens, |targets|);
    RelatedConserve(m, start, related, |related|);
  }

  /** The reported estimate stays within the budget exactly when the budget is not negative. */
  lemma WithinBudgetIff(targetFiles: seq<string>, related: seq<File>, read: string -> Reading, maxTokens: int)
    requires Injecting(ESTIMATE, targetFiles, related, read, maxTokens).Injected?
    ensures Injecting(ESTIMATE, targetFiles, related, read, maxTokens).tokenEstimate <= maxTokens <==> maxTokens >= 0
  {
    EstimateIsExact();
    UseIsCapped(ESTIMATE, Readings(targetFiles, read), related, maxTokens);
  }

  // ---------- What each file gets ----------

  /** A file's contribution when so much of the budget is left. */
  function Share(m: Measure, file: File, left: int): Snippet {
    if m.tokens(file.content) <= left then Snippet(file.path, file.content, false)
    else Snippet(file.path, m.cut(file.content, left), true)
  }

  /** The i-th target's snippet depends only on the budget and on what the earlier targets wanted. */
  lemma {:induction false} TargetGetsItsShare(m: Measure, files: seq<File>, maxTokens: nat, k: nat, i: nat)
    requires i < k <= |files| && Exact(m)
    ensures |Fills(m, EmptyFill(maxTokens), files, k).files| == k
    ensures Fills(m, EmptyFill(maxTokens), files, k).files[i]
            == Share(m, files[i], Max(0, maxTokens - Wanted(m, files, i)))
  {
    TargetsConserve(m, files, maxTokens, k - 1);
    if i < k - 1 {
      TargetGetsItsShare(m, files, maxTokens, k - 1, i);
    } else if k > 1 {
      TargetGetsItsShare(m, files, maxTokens, k - 1, 0);
    }
  }

  lemma {:induction false} WantedGrows(m: Measure, files: seq<File>, i: nat, j: nat)
    requires i < j <= |files|
    ensures Wanted(m, files, j) >= Wanted(m, files, i) + m.tokens(files[i].content)
  {
    if j > i + 1 {
      WantedGrows(m, files, i, j - 1);
    }
  }

  /** Every snippet is a prefix of its file; a cut one uses exactly the rest of the budget, and no token is
      spent on any file after it. */
  lemma NothingAfterTruncation(m: Measure, files: seq<File>, maxTokens: nat, i: nat, j: nat)
    requires i < j < |files| && Exact(m)
    ensures var snippets := Fills(m, EmptyFill(maxTokens), files, |files|).files;
            && |snippets| == |files|
            && snippets[j].content <= files[j].content
            && (snippets[i].truncated ==>
                  && m.tokens(snippets[i].content) == Max(0, maxTokens - Wanted(m, files, i))
                  && m.tokens(snippets[j].content) == 0)
  {
    TargetGetsItsShare(m, files, maxTokens, |files|, i);
    TargetGetsItsShare(m, files, maxTokens, |files|, j);
    WantedGrows(m, files, i, j);
    assert CutsExactly(m, files[i].content, Max(0, maxTokens - Wanted(m, files, i)));
    assert CutsExactly(m, files[j].content, Max(0, maxTokens - Wanted(m, files, j)));
  }

  /** The contributions of the first k related files: those before which something is left get their share. */
  function RelatedShares(m: Measure, files: seq<File>, room: int, k: nat): seq<Snippet>
    requires k <= |files|
  {
    if k == 0 then []
    else
      var earlier := RelatedShares(m, files, room, k - 1);
      var wanted := Wanted(m, files, k - 1);
      if wanted < room then earlier + [Share(m, files[k - 1], room - wanted)] else earlier
  }

  lemma {:induction false} RelatedGetTheirShares(m: Measure, start: Fill, files: seq<File>, k: nat)
    requires k <= |files| && start.remaining >= 0 && Exact(m)
    ensures var fill := FillsWhileRoom(m, start, files, k);
            && fill.files == start.files + RelatedShares(m, files, start.remaining, k)
            && fill.remaining == Max(0, start.remaining - Wanted(m, files, k))
  {
    if k > 0 {
      RelatedGetTheirShares(m, start, files, k - 1);
      OneFileConserves(m, FillsWhileRoom(m, start, files, k - 1), files[k - 1]);
    }
  }

  /** After a cut snippet nothing is left, and only targets follow it, each without tokens. */
  predicate CutEndsIt(m: Measure, fill: Fill, targets: nat) {
    forall i :: 0 <= i < |fill.files| && fill.files[i].truncated ==>
      fill.remaining <= 0
      && forall j :: i < j < |fill.files| ==> j < targets && m.tokens(fill.files[j].content) == 0
  }

  lemma AddFileKeepsCut(m: Measure, fill: Fill, file: File, targets: nat)
    requires Exact(m) && CutEndsIt(m, fill, targets) && (fill.remaining > 0 || |fill.files| < targets)
    ensures CutEndsIt(m, AddFile(m, fill, file), targets)
  {
    assert CutsExactly(m, file.content, fill.remaining);
  }

  lemma {:induction false} FillsKeepCut(m: Measure, files: seq<File>, maxTokens: int, k: nat)
    requires Exact(m) && k <= |files|
    ensures var fill := Fills(m, EmptyFill(maxTokens), files, k);
            |fill.files| == k && CutEndsIt(m, fill, |files|)
  {
    if k > 0 {
      FillsKeepCut(m, files, maxTokens, k - 1);
      AddFileKeepsCut(m, Fills(m, EmptyFill(maxTokens), files, k - 1), files[k - 1], |files|);
    }
  }

  lemma {:induction false} RelatedKeepCut(m: Measure, start: Fill, files: seq<File>, k: nat, targets: nat)
    requires Exact(m) && k <= |files| && CutEndsIt(m, start, targets)
    ensures CutEndsIt(m, FillsWhileRoom(m, start, files, k), targets)
  {
    if k > 0 {
      RelatedKeepCut(m, start, files, k - 1, targets);
      var fill := FillsWhileRoom(m, start, files, k - 1);
      if fill.remaining > 0 {
        AddFileKeepsCut(m, fill, files[k - 1], targets);
      }
    }
  }

  /** In the whole context, whatever the budget: after the first cut snippet no token is spent, on target
      files or on related ones, and no related file is added any more. */
  lemma NoTokenAfterTruncation(targetFiles: seq<string>, related: seq<File>, read: string -> Reading, maxTokens: int,
                               i: nat, j: nat)
    ensures var r := Injecting(ESTIMATE, targetFiles, related, read, maxTokens);
            r.Injected? && i < j < |r.files| && r.files[i].truncated ==>
              EstimateTokens(r.files[j].content) == 0 && j < |targetFiles|
  {
    EstimateIsExact();
    var targets := Readings(targetFiles, read);
    FillsKeepCut(ESTIMATE, targets, maxTokens, |targets|);
    RelatedKeepCut(ESTIMATE, Fills(ESTIMATE, EmptyFill(maxTokens), targets, |targets|), related, |related|, |targets|);
  }

  // ---------- The context as it is filled ----------

  lemma ShareFits(file: File, left: nat)
    ensures Fitted(Share(ESTIMATE, file, left), file, left)
  {
  }

  /** The first files' shares of the room. */
  predicate SharesOf(m: Measure, r: seq<Snippet>, files: seq<File>, room: int)
    requires |r| <= |files|
  {
    forall i {:trigger r[i]} :: 0 <= i < |r| ==>
      Wanted(m, files, i) < room && r[i] == Share(m, files[i], room - Wanted(m, files, i))
  }

  predicate TakenInTurn(m: Measure, r: seq<Snippet>, files: seq<File>, room: int, k: nat)
    requires k <= |files|
  {
    |r| <= k && SharesOf(m, r, files, room) && (|r| < k ==> Wanted(m, files, |r|) >= room)
  }

  lemma OneMoreIsTaken(m: Measure, r: seq<Snippet>, files: seq<File>, room: int, k: nat, left: int)
    requires k < |files| && TakenInTurn(m, r, files, room, k) && |r| == k && 0 < left == room - Wanted(m, files, k)
    ensures TakenInTurn(m, r + [Share(m, files[k], left)], files, room, k + 1)
  {
    var after := r + [Share(m, files[k], left)];
    forall i | 0 <= i < |after|
      ensures Wanted(m, files, i) < room && after[i] == Share(m, files[i], room - Wanted(m, files, i))
    {
      assert i < k ==> after[i] == r[i];
    }
  }

  lemma NoMoreIsTaken(m: Measure, r: seq<Snippet>, files: seq<File>, room: int, k: nat)
    requires k < |files| && TakenInTurn(m, r, files, room, k) && Wanted(m, files, k) >= room
    ensures TakenInTurn(m, r, files, room, k + 1)
  {
  }

  lemma {:induction false} RelatedAreTakenInTurn(m: Measure, files: seq<File>, room: int, k: nat)
    requires k <= |files|
    ensures TakenInTurn(m, RelatedShares(m, files, room, k), files, room, k)
  {
    if k > 0 {
      RelatedAreTakenInTurn(m, files, room, k - 1);
      var earlier, wanted := RelatedShares(m, files, room, k - 1), Wanted(m, files, k - 1);
      if |earlier| < k - 1 {
        WantedGrows(m, files, |earlier|, k - 1);
      }
      if wanted < room {
        OneMoreIsTaken(m, earlier, files, room, k - 1, room - wanted);
      } else {
        NoMoreIsTaken(m, earlier, files, room, k - 1);
      }
    }
  }

  lemma RelatedSharesFit(files: seq<File>, room: nat)
    ensures SharesFit(RelatedShares(ESTIMATE, files, room, |files|), files, room, |files|)
  {
    RelatedAreTakenInTurn(ESTIMATE, files, room, |files|);
    var r := RelatedShares(ESTIMATE, files, room, |files|);
    forall i | 0 <= i < |r|
      ensures Wanted(ESTIMATE, files, i) < room && Fitted(r[i], files[i], room - Wanted(ESTIMATE, files, i))
    {
      assert r[i] == Share(ESTIMATE, files[i], room - Wanted(ESTIMATE, files, i));
      ShareFits(files[i], room - Wanted(ESTIMATE, files, i));
    }
  }

  lemma TargetIsFitted(targets: seq<File>, maxTokens: nat, i: nat)
    requires i < |targets|
    ensures var files := Fills(ESTIMATE, EmptyFill(maxTokens), targets, |targets|).files;
            && |files| == |targets|
            && Fitted(files[i], targets[i], Max(0, maxTokens - Wanted(ESTIMATE, targets, i)))
  {
    EstimateIsExact();
    TargetGetsItsShare(ESTIMATE, targets, maxTokens, |targets|, i);
    ShareFits(targets[i], Max(0, maxTokens - Wanted(ESTIMATE, targets, i)));
  }

  lemma TargetSnippets(targets: seq<File>, maxTokens: nat)
    ensures var files := Fills(ESTIMATE, EmptyFill(maxTokens), targets, |targets|).files;
            |files| == |targets| && TargetsFitted(files, targets, maxTokens)
  {
    EstimateIsExact();
    FillsKeepCut(ESTIMATE, targets, maxTokens, |targets|);
    var files := Fills(ESTIMATE, EmptyFill(maxTokens), targets, |targets|).files;
    forall i | 0 <= i < |targets|
      ensures Fitted(files[i], targets[i], Max(0, maxTokens - Wanted(ESTIMATE, targets, i)))
    {
      TargetIsFitted(targets, maxTokens, i);
    }
  }

  lemma FilledTogether(first: seq<Snippet>, shares: seq<Snippet>, targets: seq<File>, related: seq<File>,
                       maxTokens: nat)
    requires |first| == |targets| && TargetsFitted(first, targets, maxTokens)
    requires SharesFit(shares, related, Max(0, maxTokens - Wanted(ESTIMATE, targets, |targets|)), |related|)
    ensures TargetsFitted(first + shares, targets, maxTokens)
    ensures RelatedFitted(first + shares, targets, related, maxTokens)
  {
    assert (first + shares)[|targets|..] == shares;
  }

  lemma FilesFitted(targets: seq<File>, related: seq<File>, maxTokens: nat)
    ensures var snippets := FillAll(ESTIMATE, targets, related, maxTokens).files;
            TargetsFitted(snippets, targets, maxTokens) && RelatedFitted(snippets, targets, related, maxTokens)
  {
    EstimateIsExact();
    TargetSnippets(targets, maxTokens);
    TargetsConserve(ESTIMATE, targets, maxTokens, |targets|);
    var start := Fills(ESTIMATE, EmptyFill(maxTokens), targets, |targets|);
    RelatedGetTheirShares(ESTIMATE, start, related, |related|);
    RelatedSharesFit(related, start.remaining);
    var shares := RelatedShares(ESTIMATE, related, start.remaining, |related|);
    FilledTogether(start.files, shares, targets, related, maxTokens);
  }

  lemma FillsTheContext(targets: seq<File>, related: seq<File>, maxTokens: int)
    ensures var fill := FillAll(ESTIMATE, targets, related, maxTokens);
            FilledWith(fill.files, fill.used, targets, related, maxTokens)
  {
    EstimateIsExact();
    UseIsCapped(ESTIMATE, targets, related, maxTokens);
    if maxTokens >= 0 {
      FilesFitted(targets, related, maxTokens);
    }
  }
}
