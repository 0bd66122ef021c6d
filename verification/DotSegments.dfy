/** What dot-segment removal means, independently of the stack that computes it. */
module DotSegments {
  import opened Href
  import opened Outcomes
  import opened Text

  function Ups(segments: seq<string>): nat {
    if segments == [] then 0
    else Ups(segments[..|segments| - 1]) + if segments[|segments| - 1] == ".." then 1 else 0
  }

  function Names(segments: seq<string>): nat {
    if segments == [] then 0
    else Names(segments[..|segments| - 1]) + if Ordinary(segments[|segments| - 1]) then 1 else 0
  }

  /** More steps up than the base and these segments' names go down. */
  predicate Over(depth: nat, prefix: seq<string>) {
    Ups(prefix) > depth + Names(prefix)
  }

  /** Some prefix climbs higher than the base and the names before it go down. */
  ghost predicate Escapes(depth: nat, segments: seq<string>) {
    exists k :: 0 <= k <= |segments| && Over(depth, segments[..k])
  }

  /** A path escapes iff some prefix of it has more `..` than the base has segments and the prefix has names. */
  lemma {:induction false} EscapesExactlyWhen(stack: seq<string>, segments: seq<string>)
    ensures Walk(stack, segments).None? <==> Escapes(|stack|, segments)
    ensures Walk(stack, segments).Some? ==>
              |Walk(stack, segments).value| + Ups(segments) == |stack| + Names(segments)
  {
    if segments == [] {
      assert forall k :: 0 <= k <= |segments| ==> segments[..k] == [];
    } else {
      var front := segments[..|segments| - 1];
      EscapesExactlyWhen(stack, front);
      PrefixesGrow(|stack|, segments);
    }
  }

  lemma PrefixesGrow(depth: nat, segments: seq<string>)
    requires segments != []
    ensures Escapes(depth, segments) <==> Escapes(depth, segments[..|segments| - 1]) || Over(depth, segments)
  {
    var front := segments[..|segments| - 1];
    assert segments[..|segments|] == segments;
    assert forall k :: 0 <= k <= |front| ==> front[..k] == segments[..k];
    if Over(depth, segments) {
      assert Over(depth, segments[..|segments|]);
    }
  }

  /**
   * The names that survive, read from the right: each `..` takes away the
   * nearest name to its left that no later `..` has taken.
   */
  function Survivors(segments: seq<string>, pending: nat): seq<string> {
    if segments == [] then []
    else
      var front, last := segments[..|segments| - 1], segments[|segments| - 1];
      if last == ".." then Survivors(front, pending + 1)
      else if !Ordinary(last) then Survivors(front, pending)
      else if pending > 0 then Survivors(front, pending - 1)
      else Survivors(front, 0) + [last]
  }

  predicate AllOrdinary(segments: seq<string>) {
    forall k :: 0 <= k < |segments| ==> Ordinary(segments[k])
  }

  /** All but the last `n` elements. */
  function Without(s: seq<string>, n: nat): seq<string> {
    if n <= |s| then s[..|s| - n] else []
  }

  lemma {:induction false} BaseSurvives(stack: seq<string>, pending: nat)
    requires AllOrdinary(stack)
    ensures Survivors(stack, pending) == Without(stack, pending)
  {
    if stack != [] {
      var front := stack[..|stack| - 1];
      BaseSurvives(front, if pending > 0 then pending - 1 else 0);
      assert stack == front + [stack[|stack| - 1]];
    }
  }

  lemma SurvivorsLast(front: seq<string>, last: string, pending: nat)
    ensures Survivors(front + [last], pending) ==
            if last == ".." then Survivors(front, pending + 1)
            else if !Ordinary(last) then Survivors(front, pending)
            else if pending > 0 then Survivors(front, pending - 1)
            else Survivors(front, 0) + [last]
  {
    assert (front + [last])[..|front|] == front;
  }

  lemma WithoutPushed(s: seq<string>, last: string, n: nat)
    ensures Without(s + [last], n + 1) == Without(s, n)
  {
  }

  lemma WithoutPopped(s: seq<string>, n: nat)
    requires s != []
    ensures Without(s[..|s| - 1], n) == Without(s, n + 1)
  {
  }

  lemma WithoutNone(s: seq<string>)
    ensures Without(s, 0) == s
  {
  }

  /** How many `..` are pending once the last segment is read from the right. */
  function PendingAfter(last: string, pending: nat): nat {
    if last == ".." then pending + 1 else if Ordinary(last) && pending > 0 then pending - 1 else pending
  }

  lemma OneMoreUp(front: seq<string>, last: string, before: seq<string>, pending: nat)
    requires last == ".." && before != [] && Survivors(front, pending + 1) == Without(before, pending + 1)
    ensures Survivors(front + [last], pending) == Without(before[..|before| - 1], pending)
  {
    SurvivorsLast(front, last, pending);
    WithoutPopped(before, pending);
  }

  lemma OneMoreName(front: seq<string>, last: string, before: seq<string>, pending: nat)
    requires Ordinary(last)
    requires var next := if pending > 0 then pending - 1 else 0; Survivors(front, next) == Without(before, next)
    ensures Survivors(front + [last], pending) == Without(before + [last], pending)
  {
    SurvivorsLast(front, last, pending);
    if pending > 0 {
      WithoutPushed(before, last, pending - 1);
    } else {
      WithoutNone(before);
      WithoutNone(before + [last]);
    }
  }

  lemma OneMoreSegment(front: seq<string>, last: string, before: seq<string>, pending: nat)
    requires AllOrdinary(before) && WalkOne(before, last).Some?
    requires Survivors(front, PendingAfter(last, pending)) == Without(before, PendingAfter(last, pending))
    ensures AllOrdinary(WalkOne(before, last).value)
    ensures Survivors(front + [last], pending) == Without(WalkOne(before, last).value, pending)
  {
    if Ordinary(last) {
      OneMoreName(front, last, before, pending);
    } else if last == ".." {
      OneMoreUp(front, last, before, pending);
    } else {
      SurvivorsLast(front, last, pending);
    }
  }

  /** The stack machine leaves exactly the survivors. */
  lemma {:induction false} WalkLeavesSurvivors(stack: seq<string>, segments: seq<string>, pending: nat)
    requires AllOrdinary(stack) && Walk(stack, segments).Some?
    ensures AllOrdinary(Walk(stack, segments).value)
    ensures Survivors(stack + segments, pending) == Without(Walk(stack, segments).value, pending)
  {
    if segments == [] {
      assert stack + segments == stack;
      BaseSurvives(stack, pending);
    } else {
      var front, last := segments[..|segments| - 1], segments[|segments| - 1];
      WalkLeavesSurvivors(stack, front, PendingAfter(last, pending));
      OneMoreSegment(stack + front, last, Walk(stack, front).value, pending);
      assert stack + segments == stack + front + [last];
    }
  }

  /** A directory that paths may be resolved against: empty, or ordinary names and separators. */
  predicate ValidBase(baseDir: string) {
    AllOrdinary(BaseSegments(baseDir)) && '\\' !in baseDir && '\0' !in baseDir
  }

  lemma {:induction false} JoinChars(parts: seq<string>, c: char, d: char)
    requires d != c && forall p :: p in parts ==> d !in p
    ensures d !in Join(parts, c)
  {
    if |parts| > 1 {
      assert forall p :: p in parts[1..] ==> p in parts;
      JoinChars(parts[1..], c, d);
    }
  }

  lemma {:induction false} SplitChars(s: string, c: char, d: char)
    requires d !in s
    ensures forall p :: p in Split(s, c) ==> d !in p
    decreases |s|
  {
    match SplitOnce(s, c)
    case None =>
    case Some((head, tail)) =>
      assert s == head + [c] + tail;
      SplitChars(tail, c, d);
  }

  lemma {:induction false} WalkKeepsClean(stack: seq<string>, segments: seq<string>, c: char)
    requires forall p :: p in stack || p in segments ==> c !in p
    requires Walk(stack, segments).Some?
    ensures forall p :: p in Walk(stack, segments).value ==> c !in p
  {
    if segments != [] {
      var front := segments[..|segments| - 1];
      assert forall p :: p in front ==> p in segments;
      WalkKeepsClean(stack, front, c);
      var before := Walk(stack, front).value;
      assert forall p :: p in before[..if before == [] then 0 else |before| - 1] ==> p in before;
    }
  }

  /** A path that was normalized, cut back into its segments. */
  lemma NormalizedSegments(baseDir: string, path: string) returns (segments: seq<string>)
    requires ValidBase(baseDir) && Normalized(baseDir, path).Ok?
    ensures segments != [] && AllOrdinary(segments)
    ensures forall p :: p in segments ==> '/' !in p && '\\' !in p && '\0' !in p
    ensures Normalized(baseDir, path).value == Join(segments, '/') && Split(Join(segments, '/'), '/') == segments
    ensures segments == Survivors(BaseSegments(baseDir) + Split(ForwardSlashes(path), '/'), 0)
  {
    var base, parts := BaseSegments(baseDir), Split(ForwardSlashes(path), '/');
    segments := Walk(base, parts).value;
    WalkLeavesSurvivors(base, parts, 0);
    assert '\0' !in ForwardSlashes(path);
    SplitChars(baseDir, '/', '\\');
    SplitChars(ForwardSlashes(path), '/', '\\');
    SplitChars(baseDir, '/', '\0');
    SplitChars(ForwardSlashes(path), '/', '\0');
    WalkKeepsClean(base, parts, '/');
    WalkKeepsClean(base, parts, '\\');
    WalkKeepsClean(base, parts, '\0');
    SplitJoin(segments, '/');
  }

  /** Against a valid directory, escaping the root is the only way a well-formed path fails, and it is exact. */
  lemma TraversalExactlyWhen(baseDir: string, path: string)
    requires path != "" && |path| + |baseDir| + 1 <= MAX_PATH_BYTES && '\0' !in path && ForwardSlashes(path)[0] != '/'
    ensures Normalized(baseDir, path) == Err(Traversal) <==>
            Escapes(|BaseSegments(baseDir)|, Split(ForwardSlashes(path), '/'))
  {
    EscapesExactlyWhen(BaseSegments(baseDir), Split(ForwardSlashes(path), '/'));
  }

  /** The directory of a normalized path is again one that paths may be resolved against. */
  lemma ParentIsValidBase(baseDir: string, path: string)
    requires ValidBase(baseDir) && Normalized(baseDir, path).Ok?
    ensures ValidBase(ParentDir(Normalized(baseDir, path).value))
  {
    var segments := NormalizedSegments(baseDir, path);
    var dir := segments[..|segments| - 1];
    ParentOfJoin(segments);
    assert forall p :: p in dir ==> p in segments;
    JoinChars(dir, '/', '\\');
    JoinChars(dir, '/', '\0');
    if dir != [] {
      SplitJoin(dir, '/');
    }
    if Join(dir, '/') == "" {
    } else {
      assert BaseSegments(Join(dir, '/')) == dir;
    }
  }

  lemma {:induction false} JoinLast(parts: seq<string>, c: char)
    requires |parts| > 1
    ensures Join(parts, c) == Join(parts[..|parts| - 1], c) + ([c] + parts[|parts| - 1])
  {
    if |parts| > 2 {
      JoinLast(parts[1..], c);
      assert parts[1..][..|parts| - 2] == parts[..|parts| - 1][1..];
    }
  }

  lemma ParentOfJoin(parts: seq<string>)
    requires parts != [] && forall p :: p in parts ==> '/' !in p
    ensures ParentDir(Join(parts, '/')) == Join(parts[..|parts| - 1], '/')
  {
    var last := parts[|parts| - 1];
    assert '/' !in last;
    if |parts| > 1 {
      JoinLast(parts, '/');
      LastSlash(Join(parts[..|parts| - 1], '/'), last);
    }
  }

  lemma LastSlash(front: string, last: string)
    requires '/' !in last
    ensures ParentDir(front + (['/'] + last)) == front
  {
    CutBack(front, '/', last);
    var s := front + (['/'] + last);
    assert forall k :: |front| < k < |s| ==> s[k] == last[k - |front| - 1];
    assert LastOf(s, {'/'}) == Some(|front|);
  }

  lemma {:induction false} WalkOrdinary(stack: seq<string>, segments: seq<string>)
    requires AllOrdinary(segments)
    ensures Walk(stack, segments) == Some(stack + segments)
  {
    if segments == [] {
      assert stack + segments == stack;
    } else {
      var front := segments[..|segments| - 1];
      WalkOrdinary(stack, front);
      assert stack + front + [segments[|segments| - 1]] == stack + segments;
    }
  }

  lemma SlashesAreForward(s: string)
    requires '\\' !in s
    ensures ForwardSlashes(s) == s
  {
  }

  /** Normalizing again changes nothing, and is possible exactly while the length still allows it. */
  lemma RenormalizingChangesNothing(baseDir: string, path: string)
    requires ValidBase(baseDir) && Normalized(baseDir, path).Ok?
    ensures var result := Normalized(baseDir, path).value;
            Normalized("", result) == if |result| < MAX_PATH_BYTES then Ok(result) else Err(TooLong)
  {
    var segments := NormalizedSegments(baseDir, path);
    var result := Join(segments, '/');
    JoinChars(segments, '/', '\\');
    JoinChars(segments, '/', '\0');
    SlashesAreForward(result);
    WalkOrdinary([], segments);
    assert [] + segments == segments;
    StartsOrdinary(segments);
  }

  lemma StartsOrdinary(segments: seq<string>)
    requires segments != [] && segments[0] != "" && '/' !in segments[0]
    ensures Join(segments, '/') != "" && Join(segments, '/')[0] != '/'
  {
    assert Join(segments, '/')[0] == segments[0][0];
  }

  /** A file in the directory of the document that links to it. */
  function InDirectory(baseDir: string, name: string): string {
    if baseDir == "" then name else baseDir + (['/'] + name)
  }

  /** A name without separators leads to the file of that name in the directory. */
  lemma NameIsNormalized(baseDir: string, name: string)
    requires Ordinary(name) && '/' !in name && '\\' !in name && '\0' !in name
    requires |name| + |baseDir| + 1 <= MAX_PATH_BYTES
    ensures Normalized(baseDir, name) == Ok(InDirectory(baseDir, name))
  {
    var parts := BaseSegments(baseDir) + [name];
    SlashesAreForward(name);
    assert Split(name, '/') == [name];
    WalkOrdinary(BaseSegments(baseDir), [name]);
    if baseDir != "" {
      JoinLast(parts, '/');
      assert parts[..|parts| - 1] == BaseSegments(baseDir);
    }
  }

  /** A file name that needs no decoding and names nothing but itself. */
  predicate IsPlain(name: string) {
    Ordinary(name) && forall k :: 0 <= k < |name| ==> name[k] !in {'#', '%', '/', '\\', ':', '\0'}
  }

  /** Such a name resolves to the file of that name beside the document that links to it. */
  lemma PlainNameResolves(baseDir: string, name: string, lossy: string -> string)
    requires IsPlain(name) && |name| + |baseDir| + 1 <= MAX_PATH_BYTES
    ensures Resolve(baseDir, name, lossy) == Ok(Entry(InDirectory(baseDir, name)))
  {
    NameIsNormalized(baseDir, name);
    assert Split(name, '#') == [name];
    assert !IsAbsoluteUri(name);
  }

  // ----- Every way to fail -----

  /** A path that none of the checks before the walk refuses. */
  predicate WellFormedPath(baseDir: string, path: string) {
    path != "" && |path| + |baseDir| < 1024 && '\0' !in path && path[0] != '/' && path[0] != '\\'
  }

  /**
   * What normalizing comes to, for every path: the error of the first check that refuses
   * it, or a traversal, or the names that survive, of which there must be one.
   */
  lemma NormalizedExactlyWhen(baseDir: string, path: string)
    requires ValidBase(baseDir)
    ensures var r, parts := Normalized(baseDir, path), BaseSegments(baseDir) + Split(ForwardSlashes(path), '/');
            && (path == "" ==> r == Err(EmptyPath))
            && (path != "" && |path| + |baseDir| >= 1024 ==> r == Err(TooLong))
            && (path != "" && |path| + |baseDir| < 1024 && '\0' in path ==> r == Err(IllegalByte('\0')))
            && (path != "" && |path| + |baseDir| < 1024 && '\0' !in path && path[0] in {'/', '\\'} ==> r == Err(Absolute))
            && (WellFormedPath(baseDir, path) ==>
                  r == if Escapes(|BaseSegments(baseDir)|, Split(ForwardSlashes(path), '/')) then Err(Traversal)
                       else if Survivors(parts, 0) == [] then Err(EmptyPath)
                       else Ok(Join(Survivors(parts, 0), '/')))
  {
    if WellFormedPath(baseDir, path) {
      TraversalExactlyWhen(baseDir, path);
      WellFormedIsWalked(baseDir, path);
    }
  }

  lemma WellFormedIsWalked(baseDir: string, path: string)
    requires ValidBase(baseDir) && WellFormedPath(baseDir, path)
    ensures var r, parts := Normalized(baseDir, path), BaseSegments(baseDir) + Split(ForwardSlashes(path), '/');
            r != Err(Traversal) ==> r == if Survivors(parts, 0) == [] then Err(EmptyPath) else Ok(Join(Survivors(parts, 0), '/'))
  {
    var base, parts := BaseSegments(baseDir), Split(ForwardSlashes(path), '/');
    assert ForwardSlashes(path)[0] != '/';
    if Walk(base, parts).Some? {
      WalkLeavesSurvivors(base, parts, 0);
      WithoutNone(Walk(base, parts).value);
    }
  }

  // ----- Resolving an href -----

  /** An href is absolute exactly when it starts with a scheme of two characters or more, a letter first, and a colon. */
  lemma AbsoluteExactlyWhen(href: string)
    ensures IsAbsoluteUri(href) <==> exists scheme, rest :: href == scheme + [':'] + rest && IsScheme(scheme)
  {
    if IsAbsoluteUri(href) {
      var colon := FirstOf(href, {':'}).value;
      assert href == href[..colon] + [':'] + href[colon + 1..];
      assert IsScheme(href[..colon]);
    }
    forall scheme, rest | href == scheme + [':'] + rest && IsScheme(scheme) ensures IsAbsoluteUri(href) {
      assert href[|scheme|] == ':';
      assert forall k :: 0 <= k < |scheme| ==> href[k] == scheme[k];
      assert FirstOf(href, {':'}) == Some(|scheme|);
    }
  }

  predicate IsScheme(scheme: string) {
    && |scheme| >= 2 && ('a' <= scheme[0] <= 'z' || 'A' <= scheme[0] <= 'Z')
    && forall k :: 0 <= k < |scheme| ==>
         'a' <= scheme[k] <= 'z' || 'A' <= scheme[k] <= 'Z' || '0' <= scheme[k] <= '9' || scheme[k] in {'+', '-', '.'}
  }

  /** An href that is not remote and not too long is its path, without the fragment, decoded and normalized. */
  lemma HrefIsItsPath(baseDir: string, path: string, fragment: string, lossy: string -> string)
    requires '#' !in path
    ensures var href := path + ['#'] + fragment;
            && (|href| > 1024 ==> Resolve(baseDir, href, lossy) == Err(TooLong))
            && (|href| <= 1024 && IsAbsoluteUri(href) ==> Resolve(baseDir, href, lossy) == Ok(Remote(href)))
            && (|href| <= 1024 && !IsAbsoluteUri(href) ==>
                  match Normalized(baseDir, PercentDecoded(path, lossy))
                  case Ok(resolved) => Resolve(baseDir, href, lossy) == Ok(Entry(resolved))
                  case Err(error) => Resolve(baseDir, href, lossy) == Err(error))
  {
    SplitOnceAt(path, '#', fragment);
  }
}
