/** Remote path claims of SFTP tasks: canonical form, conflicts and minimal claim sets. */
module TaskClaims {
  import opened PathText

  /** The characters `String.prototype.trim` removes. */
  predicate IsTrimmed(c: char) {
    c in {'\t', '\n', '\U{0B}', '\U{0C}', '\r', ' ', '\U{A0}', '\U{1680}', '\U{2028}', '\U{2029}', '\U{202F}',
          '\U{205F}', '\U{3000}', '\U{FEFF}'}
    || '\U{2000}' <= c <= '\U{200A}'
  }

  function TrimStart(text: string): (trimmed: string) {
    if text != "" && IsTrimmed(text[0]) then TrimStart(text[1..]) else text
  }

  function TrimEnd(text: string): (trimmed: string) {
    if text != "" && IsTrimmed(text[|text| - 1]) then TrimEnd(text[..|text| - 1]) else text
  }

  function ForwardSlashes(text: string): (slashed: string)
    ensures |slashed| == |text|
  {
    seq(|text|, i requires 0 <= i < |text| => if text[i] == '\\' then '/' else text[i])
  }

  /** The components a raw claim stands for; anything that is not absolute stands for the root. */
  function ClaimNames(input: string): (names: seq<string>)
    ensures AllNames(names)
  {
    var slashed := ForwardSlashes(TrimEnd(TrimStart(input)));
    if slashed == "" || slashed[0] != '/' then [] else Resolve([], Split(slashed))
  }

  ghost predicate Canonical(claim: string) {
    exists names :: AllNames(names) && claim == Render(names)
  }

  function NormalizeClaimPath(input: string): (claim: string)
    ensures Canonical(claim)
  {
    Render(ClaimNames(input))
  }

  predicate ClaimsConflict(left: string, right: string) {
    left == right || left == "/" || right == "/" || right + "/" <= left || left + "/" <= right
  }

  predicate ClaimSetsConflict(left: seq<string>, right: seq<string>) {
    exists l <- left, r <- right :: ClaimsConflict(l, r)
  }

  lemma ClaimSetsConflictSymmetric(left: seq<string>, right: seq<string>)
    ensures ClaimSetsConflict(left, right) == ClaimSetsConflict(right, left)
  {
  }

  /** The string test on canonical claims is exactly the ancestor relation on their components. */
  lemma ConflictIsAncestry(a: seq<string>, b: seq<string>)
    requires AllNames(a) && AllNames(b)
    ensures ClaimsConflict(Render(a), Render(b)) <==> a <= b || b <= a
  {
    if a != [] && b != [] {
      SlashedPrefix(a, b);
      SlashedPrefix(b, a);
      PrefixWithSlash(Slashed(a), Slashed(b));
      PrefixWithSlash(Slashed(b), Slashed(a));
    }
  }

  lemma PrefixWithSlash(x: string, y: string)
    ensures x + "/" <= y + "/" <==> x == y || x + "/" <= y
  {
    if x + "/" <= y + "/" && x != y {
      assert x == (y + "/")[..|x|];
      assert |x| < |y|;
      assert x + "/" == (y + "/")[..|x| + 1] == y[..|x| + 1];
    }
  }

  /**
   * Normalising twice is normalising once exactly when the first result does not end in white space:
   * the trim comes before `.` and `..` are resolved, and resolving can expose a trailing space.
   */
  lemma NormalizeIdempotentWhen(input: string)
    ensures var claim := NormalizeClaimPath(input);
            NormalizeClaimPath(claim) == claim <==> !IsTrimmed(claim[|claim| - 1])
  {
    var names := ClaimNames(input);
    var claim := NormalizeClaimPath(input);
    NoBackslash(input);
    assert ForwardSlashes(claim) == claim;
    assert TrimStart(claim) == claim;
    if IsTrimmed(claim[|claim| - 1]) {
      var shorter := TrimEnd(claim);
      TrimEndShortens(claim);
      if shorter != "" && shorter[0] == '/' {
        assert ForwardSlashes(shorter) == shorter;
        assert FirstPart(shorter) == "";
        SplitLength(shorter);
        ResolveLength([], Split(shorter));
      }
    } else {
      ResolveOfRender(names);
    }
  }

  lemma ExampleIsTrimmed()
    ensures ForwardSlashes(TrimEnd(TrimStart("/x /."))) == "/x /."
  {
    assert TrimEnd(TrimStart("/x /.")) == "/x /.";
  }

  lemma ExampleIsSplit()
    ensures Split("/x /.") == ["", "x ", "."]
  {
    hide Split, FirstPart;
    assert "/x /." == "" + "/" + "x /." && "x /." == "x " + "/" + ".";
    SplitAtSlash("", "x /.");
    SplitAtSlash("x ", ".");
    SplitName(".");
  }

  lemma ExampleNames()
    ensures ClaimNames("/x /.") == ["x "]
  {
    hide Split, TrimStart, TrimEnd, ForwardSlashes;
    ExampleIsTrimmed();
    ExampleIsSplit();
    var parts := ["", "x ", "."];
    assert parts[1..] == ["x ", "."] && parts[1..][1..] == ["."] && ["."][1..] == [];
    assert Resolve([], parts) == Resolve([], ["x ", "."]) == Resolve(["x "], ["."]) == ["x "];
  }

  /** A concrete path for which normalising twice differs from normalising once. */
  lemma NormalizeNotIdempotent()
    ensures NormalizeClaimPath(NormalizeClaimPath("/x /.")) != NormalizeClaimPath("/x /.")
  {
    hide ClaimNames;
    ExampleNames();
    assert Render(["x "]) == "/x ";
    NormalizeIdempotentWhen("/x /.");
  }

  lemma TrimEndShortens(text: string)
    requires text != "" && IsTrimmed(text[|text| - 1])
    ensures |TrimEnd(text)| < |text| && TrimEnd(text) <= text
  {
    var shorter := text[..|text| - 1];
    if shorter != "" && IsTrimmed(shorter[|shorter| - 1]) {
      TrimEndShortens(shorter);
    }
  }

  function TotalLength(parts: seq<string>): nat {
    if parts == [] then 0 else |parts[0]| + 1 + TotalLength(parts[1..])
  }

  lemma {:induction false} SplitLength(text: string)
    ensures TotalLength(Split(text)) == |text| + 1
    decreases |text|
  {
    var part := FirstPart(text);
    if |part| < |text| {
      SplitLength(text[|part| + 1..]);
      assert Split(text) == [part] + Split(text[|part| + 1..]);
    }
  }

  lemma {:induction false} ResolveLength(base: seq<string>, parts: seq<string>)
    requires AllNames(base)
    requires forall i :: 0 <= i < |parts| ==> '/' !in parts[i]
    ensures |Slashed(Resolve(base, parts))| <= |Slashed(base)| + TotalLength(parts)
    ensures parts != [] && parts[0] == "" ==>
              |Slashed(Resolve(base, parts))| < |Slashed(base)| + TotalLength(parts)
    decreases |parts|
  {
    if parts == [] {
    } else if parts[0] == "" || parts[0] == "." {
      ResolveLength(base, parts[1..]);
    } else if parts[0] == ".." {
      var parent := if base == [] then base else base[..|base| - 1];
      if base != [] {
        SlashedSnoc(parent, base[|base| - 1]);
        assert parent + [base[|base| - 1]] == base;
      }
      ResolveLength(parent, parts[1..]);
    } else {
      SlashedSnoc(base, parts[0]);
      ResolveLength(base + [parts[0]], parts[1..]);
    }
  }

  lemma {:induction false} SplitAvoids(c: char, text: string)
    requires c !in text
    ensures forall i :: 0 <= i < |Split(text)| ==> c !in Split(text)[i]
    decreases |text|
  {
    var part := FirstPart(text);
    if |part| < |text| {
      SplitAvoids(c, text[|part| + 1..]);
      assert Split(text) == [part] + Split(text[|part| + 1..]);
    }
  }

  lemma {:induction false} ResolveAvoids(c: char, base: seq<string>, parts: seq<string>)
    requires AllNames(base) && c != '/'
    requires forall i :: 0 <= i < |parts| ==> '/' !in parts[i] && c !in parts[i]
    requires c !in Slashed(base)
    ensures c !in Slashed(Resolve(base, parts))
    decreases |parts|
  {
    if parts == [] {
    } else if parts[0] == "" || parts[0] == "." {
      ResolveAvoids(c, base, parts[1..]);
    } else if parts[0] == ".." {
      var parent := if base == [] then base else base[..|base| - 1];
      if base != [] {
        SlashedSnoc(parent, base[|base| - 1]);
        assert parent + [base[|base| - 1]] == base;
      }
      ResolveAvoids(c, parent, parts[1..]);
    } else {
      SlashedSnoc(base, parts[0]);
      ResolveAvoids(c, base + [parts[0]], parts[1..]);
    }
  }

  lemma NoBackslash(input: string)
    ensures '\\' !in NormalizeClaimPath(input)
  {
    var slashed := ForwardSlashes(TrimEnd(TrimStart(input)));
    if slashed != "" && slashed[0] == '/' {
      SplitAvoids('\\', slashed);
      ResolveAvoids('\\', [], Split(slashed));
    }
  }

  // ---------------------------------------------------------------------------------------------
  // Minimal claim sets

  /** Equal to `claim` or an ancestor of it. */
  predicate Covers(ancestor: string, claim: string) {
    ancestor == claim || ancestor == "/" || ancestor + "/" <= claim
  }

  predicate SortedByLength(claims: seq<string>) {
    forall i, j :: 0 <= i < j < |claims| ==> |claims[i]| <= |claims[j]|
  }

  predicate Unrepeated(claims: seq<string>) {
    forall i, j :: 0 <= i < j < |claims| ==> claims[i] != claims[j]
  }

  function Inserted(claims: seq<string>, at: nat, claim: string): (after: seq<string>)
    requires at <= |claims|
  {
    claims[..at] + [claim] + claims[at..]
  }

  lemma InsertedAt(claims: seq<string>, at: nat, claim: string, i: nat)
    requires at <= |claims| && i <= |claims|
    ensures |Inserted(claims, at, claim)| == |claims| + 1
    ensures Inserted(claims, at, claim)[i] == if i < at then claims[i] else if i == at then claim else claims[i - 1]
  {
  }

  lemma InsertedSorted(claims: seq<string>, at: nat, claim: string)
    requires SortedByLength(claims) && at <= |claims|
    requires forall i :: 0 <= i < at ==> |claims[i]| <= |claim|
    requires at < |claims| ==> |claims[at]| > |claim|
    ensures SortedByLength(Inserted(claims, at, claim))
  {
    InsertedAt(claims, at, claim, 0);
    hide Inserted;
    forall i, j | 0 <= i < j < |Inserted(claims, at, claim)|
      ensures |Inserted(claims, at, claim)[i]| <= |Inserted(claims, at, claim)[j]|
    {
      InsertedAt(claims, at, claim, i);
      InsertedAt(claims, at, claim, j);
    }
  }

  lemma InsertedUnrepeated(claims: seq<string>, at: nat, claim: string)
    requires Unrepeated(claims) && claim !in claims && at <= |claims|
    ensures Unrepeated(Inserted(claims, at, claim))
  {
    InsertedAt(claims, at, claim, 0);
    hide Inserted;
    forall i, j | 0 <= i < j < |Inserted(claims, at, claim)|
      ensures Inserted(claims, at, claim)[i] != Inserted(claims, at, claim)[j]
    {
      InsertedAt(claims, at, claim, i);
      InsertedAt(claims, at, claim, j);
    }
  }

  lemma InsertedMembers(claims: seq<string>, at: nat, claim: string)
    requires at <= |claims|
    ensures forall c :: c in Inserted(claims, at, claim) <==> c in claims || c == claim
  {
    assert claims == claims[..at] + claims[at..];
  }

  /** The distinct claims, shortest first; claims of one length come in an order left open. */
  method DistinctByLength(claims: seq<string>) returns (sorted: seq<string>)
    ensures SortedByLength(sorted) && Unrepeated(sorted)
    ensures forall c :: c in sorted <==> c in claims
  {
    hide Unrepeated, Inserted;
    sorted := [];
    NothingIsRepeated();
    for k := 0 to |claims|
      invariant SortedByLength(sorted) && Unrepeated(sorted)
      invariant forall c :: c in sorted <==> c in claims[..k]
    {
      var claim := claims[k];
      assert claims[..k + 1] == claims[..k] + [claim];
      if claim !in sorted {
        var at := 0;
        while at < |sorted| && |sorted[at]| <= |claim|
          invariant 0 <= at <= |sorted|
          invariant forall i :: 0 <= i < at ==> |sorted[i]| <= |claim|
        {
          at := at + 1;
        }
        InsertedSorted(sorted, at, claim);
        InsertedUnrepeated(sorted, at, claim);
        InsertedMembers(sorted, at, claim);
        sorted := Inserted(sorted, at, claim);
      }
    }
    assert claims[..|claims|] == claims;
  }

  lemma NothingIsRepeated()
    ensures Unrepeated([])
  {
  }

  ghost predicate Handled(claim: string, kept: seq<string>, blocks: (string, string) -> bool) {
    claim in kept || exists m <- kept :: blocks(m, claim) && |m| <= |claim|
  }

  /**
   * Keeps each element that no kept element blocks. Scanning shortest first, whatever is dropped
   * is blocked by something kept that is no longer.
   */
  method KeepUnblocked(sorted: seq<string>, blocks: (string, string) -> bool) returns (kept: seq<string>)
    requires SortedByLength(sorted)
    ensures forall i, j :: 0 <= i < j < |kept| ==> !blocks(kept[i], kept[j])
    ensures forall i :: 0 <= i < |kept| ==> kept[i] in sorted
    ensures forall k :: 0 <= k < |sorted| ==> Handled(sorted[k], kept, blocks)
  {
    kept := [];
    for k := 0 to |sorted|
      invariant forall i, j :: 0 <= i < j < |kept| ==> !blocks(kept[i], kept[j])
      invariant forall i :: 0 <= i < |kept| ==> exists j :: 0 <= j < k && sorted[j] == kept[i]
      invariant forall j :: 0 <= j < k ==> Handled(sorted[j], kept, blocks)
    {
      var claim := sorted[k];
      if exists m <- kept :: blocks(m, claim) {
        assert Handled(claim, kept, blocks);
      } else {
        var more := kept + [claim];
        forall j | 0 <= j <= k
          ensures Handled(sorted[j], more, blocks)
        {
          HandledGrows(sorted[j], kept, claim, blocks);
        }
        kept := more;
      }
    }
  }

  lemma HandledGrows(claim: string, kept: seq<string>, extra: string, blocks: (string, string) -> bool)
    requires claim == extra || Handled(claim, kept, blocks)
    ensures Handled(claim, kept + [extra], blocks)
  {
    assert extra in kept + [extra];
    assert forall m <- kept :: m in kept + [extra];
  }

  /** The claim a covering set answers for. */
  ghost predicate CoveredBy(claim: string, claims: seq<string>) {
    exists m <- claims :: Covers(m, claim)
  }

  ghost predicate NormalizedFrom(claim: string, claims: seq<string>) {
    exists k :: 0 <= k < |claims| && claim == NormalizeClaimPath(claims[k])
  }

  /**
   * What a task reserves for its raw claims: canonical, pairwise free of conflict, each one of the
   * canonical inputs, covering every canonical input, and conflicting with the same paths.
   */
  ghost predicate Reserves(minimal: seq<string>, claims: seq<string>) {
    && (forall i :: 0 <= i < |minimal| ==> Canonical(minimal[i]))
    && (forall i, j :: 0 <= i < j < |minimal| ==> !ClaimsConflict(minimal[i], minimal[j]))
    && (forall i :: 0 <= i < |minimal| ==> NormalizedFrom(minimal[i], claims))
    && (forall k :: 0 <= k < |claims| ==> CoveredBy(NormalizeClaimPath(claims[k]), minimal))
    && (forall path | Canonical(path) ::
          ConflictsWithSome(path, minimal) <==> ConflictsWithSome(path, CanonicalTexts(claims)))
  }

  method NormalizeClaims(claims: seq<string>) returns (minimal: seq<string>)
    ensures Reserves(minimal, claims)
  {
    hide Canonical, NormalizeClaimPath, CanonicalTexts, Handled, CoveredBy, ConflictsWithSome, NormalizedFrom;
    var canonical := CanonicalTexts(claims);
    var sorted := DistinctByLength(canonical);
    minimal := KeepUnblocked(sorted, ClaimsConflict);
    KeptAreInputs(claims, minimal);
    KeptCover(claims, sorted, minimal);
    KeptKeepsConflicts(canonical, minimal);
  }

  function CanonicalTexts(claims: seq<string>): (texts: seq<string>)
    ensures |texts| == |claims|
    ensures forall k :: 0 <= k < |claims| ==> texts[k] == NormalizeClaimPath(claims[k]) && Canonical(texts[k])
  {
    if claims == [] then [] else [NormalizeClaimPath(claims[0])] + CanonicalTexts(claims[1..])
  }

  /** Every kept claim is canonical and one of the inputs. */
  lemma KeptAreInputs(claims: seq<string>, kept: seq<string>)
    requires forall i :: 0 <= i < |kept| ==> kept[i] in CanonicalTexts(claims)
    ensures forall i :: 0 <= i < |kept| ==> Canonical(kept[i])
    ensures forall i :: 0 <= i < |kept| ==> NormalizedFrom(kept[i], claims)
  {
    hide Canonical, NormalizeClaimPath, CanonicalTexts;
    forall i | 0 <= i < |kept|
      ensures Canonical(kept[i])
      ensures NormalizedFrom(kept[i], claims)
    {
      var k :| 0 <= k < |claims| && CanonicalTexts(claims)[k] == kept[i];
      assert kept[i] == NormalizeClaimPath(claims[k]);
    }
  }

  /** Every input is covered by what was kept. */
  lemma KeptCover(claims: seq<string>, sorted: seq<string>, kept: seq<string>)
    requires forall c :: c in CanonicalTexts(claims) ==> c in sorted
    requires forall i :: 0 <= i < |kept| ==> Canonical(kept[i])
    requires forall k :: 0 <= k < |sorted| ==> Handled(sorted[k], kept, ClaimsConflict)
    ensures forall k :: 0 <= k < |claims| ==> CoveredBy(CanonicalTexts(claims)[k], kept)
  {
    hide Canonical, NormalizeClaimPath, CanonicalTexts, Handled, CoveredBy;
    forall k | 0 <= k < |claims|
      ensures CoveredBy(CanonicalTexts(claims)[k], kept)
    {
      var claim := CanonicalTexts(claims)[k];
      assert claim in sorted;
      var at :| 0 <= at < |sorted| && sorted[at] == claim;
      assert Handled(sorted[at], kept, ClaimsConflict);
      ConflictingKeptCovers(claim, kept);
    }
  }

  lemma KeptKeepsConflicts(texts: seq<string>, kept: seq<string>)
    requires forall k :: 0 <= k < |texts| ==> Canonical(texts[k]) && CoveredBy(texts[k], kept)
    requires forall i :: 0 <= i < |kept| ==> kept[i] in texts
    ensures forall path | Canonical(path) :: ConflictsWithSome(path, kept) <==> ConflictsWithSome(path, texts)
  {
    forall path | Canonical(path)
      ensures ConflictsWithSome(path, kept) <==> ConflictsWithSome(path, texts)
    {
      MinimisingPreservesConflicts(texts, kept, path);
    }
  }

  lemma ConflictingKeptCovers(claim: string, kept: seq<string>)
    requires Canonical(claim) && forall i :: 0 <= i < |kept| ==> Canonical(kept[i])
    requires Handled(claim, kept, ClaimsConflict)
    ensures CoveredBy(claim, kept)
  {
    if claim in kept {
      assert Covers(claim, claim);
    } else {
      var m :| m in kept && ClaimsConflict(m, claim) && |m| <= |claim|;
      ShorterConflictCovers(m, claim);
    }
  }

  lemma ShorterConflictCovers(short: string, claim: string)
    requires Canonical(short) && Canonical(claim)
    requires ClaimsConflict(short, claim) && |short| <= |claim|
    ensures Covers(short, claim)
  {
    var a :| AllNames(a) && short == Render(a);
    var b :| AllNames(b) && claim == Render(b);
    ConflictIsAncestry(a, b);
    if b <= a && a != b {
      RenderLength(b, a);
    }
    CoverIsPrefix(a, b);
  }

  lemma CoverIsPrefix(a: seq<string>, b: seq<string>)
    requires AllNames(a) && AllNames(b)
    ensures Covers(Render(a), Render(b)) <==> a <= b
  {
    if a != [] && b != [] {
      SlashedPrefix(a, b);
      PrefixWithSlash(Slashed(a), Slashed(b));
    }
  }

  /** Whatever conflicts with a claim conflicts with everything that covers the claim. */
  lemma CoverKeepsConflict(path: string, claim: string, cover: string)
    requires Canonical(path) && Canonical(claim) && Canonical(cover)
    requires Covers(cover, claim) && ClaimsConflict(path, claim)
    ensures ClaimsConflict(path, cover)
  {
    var p :| AllNames(p) && path == Render(p);
    var a :| AllNames(a) && cover == Render(a);
    var b :| AllNames(b) && claim == Render(b);
    CoverIsPrefix(a, b);
    ConflictIsAncestry(p, b);
    ConflictIsAncestry(p, a);
    if p <= b {
      assert |p| <= |a| ==> p == b[..|p|] == a[..|p|];
      assert |a| <= |p| ==> a == b[..|a|] == p[..|a|];
    }
  }

  ghost predicate ConflictsWithSome(path: string, claims: seq<string>) {
    exists i :: 0 <= i < |claims| && ClaimsConflict(path, claims[i])
  }

  /** A covering subset conflicts with exactly the canonical paths the full set conflicts with. */
  lemma MinimisingPreservesConflicts(full: seq<string>, minimal: seq<string>, path: string)
    requires Canonical(path) && forall i :: 0 <= i < |full| ==> Canonical(full[i])
    requires forall i :: 0 <= i < |minimal| ==> minimal[i] in full
    requires forall i :: 0 <= i < |full| ==> CoveredBy(full[i], minimal)
    ensures ConflictsWithSome(path, full) <==> ConflictsWithSome(path, minimal)
  {
    if ConflictsWithSome(path, full) {
      var i :| 0 <= i < |full| && ClaimsConflict(path, full[i]);
      var m :| m in minimal && Covers(m, full[i]);
      CoverKeepsConflict(path, full[i], m);
    }
  }
}
