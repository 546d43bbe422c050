/** Virtual paths of the terminal sandbox (terminal-service-rs/src/sandbox.rs). */
module SandboxPaths {
  import opened Wrappers
  import opened Sequences
  import opened Text

  datatype PathError = InvalidCharacter | NotAbsolute | EscapesSandbox

  const NUL := 0 as char

  // ----- Normalising -----

  /** One segment against the stack: skip, pop (never below the root), or push. */
  function Walk(stack: seq<string>, segment: string): seq<string> {
    if segment == "" || segment == "." then stack
    else if segment == ".." then if stack == [] then stack else stack[..|stack| - 1]
    else stack + [segment]
  }

  function WalkAll(stack: seq<string>, segments: seq<string>): seq<string> {
    if segments == [] then stack
    else Walk(WalkAll(stack, segments[..|segments| - 1]), segments[|segments| - 1])
  }

  function Render(parts: seq<string>): string {
    if parts == [] then "/" else "/" + Join(parts, '/')
  }

  predicate IsAbsolute(s: string) {
    s != "" && s[0] == '/'
  }

  function Normalized(value: string): Result<string, PathError> {
    if NUL in value then Err(InvalidCharacter)
    else if !IsAbsolute(value) then Err(NotAbsolute)
    else Ok(Render(WalkAll([], Split(value, '/'))))
  }

  /** `normalize_virtual`. */
  method NormalizeVirtual(value: string) returns (r: Result<string, PathError>)
    ensures r == Normalized(value)
  {
    if NUL in value {
      return Err(InvalidCharacter);
    }
    if !IsAbsolute(value) {
      return Err(NotAbsolute);
    }
    var segments := Split(value, '/');
    var parts: seq<string> := [];
    for i := 0 to |segments|
      invariant parts == WalkAll([], segments[..i])
    {
      assert segments[..i + 1][..i] == segments[..i];
      if segments[i] == "" || segments[i] == "." {
        continue;
      }
      if segments[i] == ".." {
        if parts != [] {
          parts := parts[..|parts| - 1];
        }
        continue;
      }
      parts := parts + [segments[i]];
    }
    assert segments[..|segments|] == segments;
    if parts == [] {
      return Ok("/");
    }
    r := Ok("/" + Join(parts, '/'));
  }

  // ----- Resolving -----

  /** `sanitize_virtual_path`. */
  function Sanitize(input: string, home: string): Result<string, PathError> {
    if Trim(input) == "" then Normalized(home) else Normalized(input)
  }

  /** `resolve_virtual_path`. */
  function Resolve(current: string, input: string, home: string): Result<string, PathError> {
    match Sanitize(current, home)
    case Err(e) => Err(e)
    case Ok(base) =>
      if input == "" || input == "." then Ok(base)
      else if input[0] == '/' then Sanitize(input, home)
      else if base != "" && base[|base| - 1] == '/' then Normalized(base + input)
      else Normalized(base + "/" + input)
  }

  // ----- Canonical paths -----

  predicate PlainPart(part: string) {
    part != "" && part != "." && part != ".." && '/' !in part && NUL !in part
  }

  predicate PlainParts(parts: seq<string>) {
    forall i :: 0 <= i < |parts| ==> PlainPart(parts[i])
  }

  /** A slash, or plain parts each behind a slash. */
  ghost predicate Canonical(path: string) {
    exists parts :: PlainParts(parts) && path == Render(parts)
  }

  predicate Clean(segments: seq<string>) {
    forall i :: 0 <= i < |segments| ==> '/' !in segments[i] && NUL !in segments[i]
  }

  lemma {:induction false} WalkAllPlain(stack: seq<string>, segments: seq<string>)
    requires PlainParts(stack) && Clean(segments)
    ensures PlainParts(WalkAll(stack, segments))
  {
    if segments != [] {
      WalkAllPlain(stack, segments[..|segments| - 1]);
    }
  }

  lemma {:induction false} WalkAllConcat(stack: seq<string>, a: seq<string>, b: seq<string>)
    ensures WalkAll(stack, a + b) == WalkAll(WalkAll(stack, a), b)
  {
    if b == [] {
      assert a + b == a;
    } else {
      assert (a + b)[..|a + b| - 1] == a + b[..|b| - 1];
      WalkAllConcat(stack, a, b[..|b| - 1]);
    }
  }

  /** Plain parts are pushed as they are. */
  lemma {:induction false} WalkAllPushes(stack: seq<string>, parts: seq<string>)
    requires PlainParts(parts)
    ensures WalkAll(stack, parts) == stack + parts
  {
    if parts != [] {
      WalkAllPushes(stack, parts[..|parts| - 1]);
      assert parts == parts[..|parts| - 1] + [parts[|parts| - 1]];
      assert PlainPart(parts[|parts| - 1]);
    }
  }

  lemma SplitAbsolute(rest: string)
    ensures Split("/" + rest, '/') == [""] + Split(rest, '/')
  {
    SplitConcat("", rest, '/');
    assert "" + ['/'] + rest == "/" + rest;
  }

  lemma SplitRender(parts: seq<string>)
    requires PlainParts(parts)
    ensures Split(Render(parts), '/') == if parts == [] then ["", ""] else [""] + parts
  {
    if parts == [] {
      SplitAbsolute("");
      assert "/" + "" == "/";
    } else {
      SplitAbsolute(Join(parts, '/'));
      forall p | p in parts ensures '/' !in p {
        var i :| 0 <= i < |parts| && parts[i] == p;
        assert PlainPart(parts[i]);
      }
      SplitJoin(parts, '/');
    }
  }

  lemma {:induction false} SplitClean(s: string)
    requires NUL !in s
    ensures Clean(Split(s, '/'))
  {
    var parts := Split(s, '/');
    if s != "" {
      SplitClean(s[1..]);
      var rest := Split(s[1..], '/');
      forall i | 0 <= i < |parts| ensures '/' !in parts[i] && NUL !in parts[i] {
        assert parts[i] in parts;
        if s[0] == '/' {
          assert i > 0 ==> parts[i] == rest[i - 1];
        } else {
          assert i > 0 ==> parts[i] == rest[i];
          assert i == 0 ==> parts[i] == [s[0]] + rest[0];
        }
      }
    }
  }

  lemma RenderNulFree(parts: seq<string>)
    requires PlainParts(parts)
    ensures NUL !in Render(parts)
  {
    forall p | p in parts ensures NUL !in p {
      var i :| 0 <= i < |parts| && parts[i] == p;
      assert PlainPart(parts[i]);
    }
    JoinContains(parts, '/', NUL);
  }

  /** Canonical paths are left alone. */
  lemma CanonicalIsFixed(parts: seq<string>)
    requires PlainParts(parts)
    ensures Normalized(Render(parts)) == Ok(Render(parts))
    ensures Trim(Render(parts)) != ""
  {
    RenderNulFree(parts);
    SplitRender(parts);
    TrimKeepsVisible(Render(parts), 0);
    WalkAllConcat([], [""], parts);
    WalkAllConcat([], [""], [""]);
    WalkAllPushes([], parts);
    assert WalkAll([], [""]) == [];
    assert [""] + [""] == ["", ""] && [] + parts == parts;
  }

  /** The parts a path normalises to. */
  function PartsOf(value: string): seq<string> {
    WalkAll([], Split(value, '/'))
  }

  lemma NormalizedParts(value: string)
    ensures Normalized(value).Ok? ==> PlainParts(PartsOf(value)) && Normalized(value) == Ok(Render(PartsOf(value)))
  {
    if Normalized(value).Ok? {
      SplitClean(value);
      WalkAllPlain([], Split(value, '/'));
    }
  }

  /** Normalising yields canonical paths, and normalising again changes nothing. */
  lemma NormalizeIdempotent(value: string)
    requires Normalized(value).Ok?
    ensures Canonical(Normalized(value).value)
    ensures Normalized(Normalized(value).value) == Normalized(value)
  {
    NormalizedParts(value);
    CanonicalIsFixed(PartsOf(value));
  }

  /** A path is canonical exactly when it normalises to itself. */
  lemma CanonicalExactly(path: string)
    ensures Canonical(path) <==> Normalized(path) == Ok(path)
  {
    if Canonical(path) {
      var parts :| PlainParts(parts) && path == Render(parts);
      CanonicalIsFixed(parts);
    }
    if Normalized(path) == Ok(path) {
      NormalizedParts(path);
    }
  }

  // ----- Composition -----

  /** The path below a canonical one, as `resolve_virtual_path` spells it. */
  function Below(parts: seq<string>, input: string): string {
    if parts == [] then "/" + input else Render(parts) + "/" + input
  }

  lemma BelowWalksOn(parts: seq<string>, input: string)
    requires PlainParts(parts)
    ensures WalkAll([], Split(Below(parts, input), '/')) == WalkAll(parts, Split(input, '/'))
  {
    assert WalkAll([], [""]) == [];
    if parts == [] {
      SplitAbsolute(input);
      WalkAllConcat([], [""], Split(input, '/'));
    } else {
      SplitConcat(Render(parts), input, '/');
      SplitRender(parts);
      assert Render(parts) + ['/'] + input == Below(parts, input);
      WalkAllConcat([], [""] + parts, Split(input, '/'));
      WalkAllConcat([], [""], parts);
      WalkAllPushes([], parts);
      assert [] + parts == parts;
    }
  }

  lemma BelowNormalized(parts: seq<string>, input: string)
    requires PlainParts(parts)
    ensures Normalized(Below(parts, input))
            == if NUL in input then Err(InvalidCharacter) else Ok(Render(WalkAll(parts, Split(input, '/'))))
  {
    RenderNulFree(parts);
    BelowWalksOn(parts, input);
  }

  /** Resolving relative input walks on from where the current path stands. */
  lemma ResolveWalksOn(parts: seq<string>, input: string, home: string)
    requires PlainParts(parts) && (input != "" ==> input[0] != '/')
    ensures Resolve(Render(parts), input, home)
            == if NUL in input then Err(InvalidCharacter) else Ok(Render(WalkAll(parts, Split(input, '/'))))
  {
    CanonicalIsFixed(parts);
    if input == "" || input == "." {
      SplitNoSeparator(input, '/');
      assert WalkAll(parts, [input]) == Walk(WalkAll(parts, [input][..0]), input);
    } else {
      BelowNormalized(parts, input);
      if parts != [] {
        LastOfRender(parts);
      }
    }
  }

  lemma {:induction false} JoinLast(parts: seq<string>)
    requires PlainParts(parts) && parts != []
    ensures Join(parts, '/') != "" && Join(parts, '/')[|Join(parts, '/')| - 1] != '/'
  {
    assert PlainPart(parts[0]);
    if |parts| > 1 {
      JoinLast(parts[1..]);
    } else {
      assert parts[0][|parts[0]| - 1] in parts[0];
    }
  }

  lemma LastOfRender(parts: seq<string>)
    requires PlainParts(parts) && parts != []
    ensures Render(parts)[|Render(parts)| - 1] != '/'
  {
    JoinLast(parts);
  }

  /** Resolve `b` from wherever the first step has led. */
  function Then(first: Result<string, PathError>, b: string, home: string): Result<string, PathError> {
    match first case Ok(path) => Resolve(path, b, home) case Err(e) => Err(e)
  }

  /** From any directory, resolving `a/b` is resolving `a` and then `b`, errors included. */
  lemma ResolveComposes(current: string, a: string, b: string, home: string)
    requires a != "" && a[0] != '/' && (b != "" ==> b[0] != '/')
    ensures Resolve(current, a + "/" + b, home) == Then(Resolve(current, a, home), b, home)
  {
    var path := if Trim(current) == "" then home else current;
    NormalizedParts(path);
    if Normalized(path).Ok? {
      var parts := PartsOf(path);
      ResolveFromNormal(current, a, home);
      ResolveFromNormal(current, a + "/" + b, home);
      ResolveWalksOn(parts, a, home);
      ResolveWalksOn(parts, a + "/" + b, home);
      SplitConcat(a, b, '/');
      assert a + ['/'] + b == a + "/" + b;
      WalkAllConcat(parts, Split(a, '/'), Split(b, '/'));
      if NUL !in a {
        SplitClean(a);
        WalkAllPlain(parts, Split(a, '/'));
        ResolveWalksOn(WalkAll(parts, Split(a, '/')), b, home);
      }
    }
  }

  /** The current directory matters only through what it normalises to. */
  lemma ResolveFromNormal(current: string, input: string, home: string)
    requires Sanitize(current, home).Ok?
    ensures Resolve(current, input, home) == Resolve(Sanitize(current, home).value, input, home)
  {
    var path := if Trim(current) == "" then home else current;
    NormalizedParts(path);
    CanonicalIsFixed(PartsOf(path));
  }

  // ----- Real paths -----

  function Meaningful(): string -> bool {
    (s: string) => s != "" && s != "."
  }

  /** The components of an absolute path, as `std::path::Path` compares them. */
  function Components(path: string): seq<string> {
    Filter(Split(path, '/'), Meaningful())
  }

  /** `Path::join` with a relative path. */
  function JoinPath(root: string, relative: string): string {
    if root == "" || root[|root| - 1] == '/' then root + relative else root + "/" + relative
  }

  /** `to_real_path`. */
  function ToRealPath(virtual: string, root: string, home: string): Result<string, PathError> {
    match Sanitize(virtual, home)
    case Err(e) => Err(e)
    case Ok(normalized) =>
      var resolved := JoinPath(root, "." + normalized);
      if Components(resolved) != Components(root) && !(Components(root) <= Components(resolved)) then Err(EscapesSandbox)
      else Ok(resolved)
  }

  lemma {:induction false} PlainIsMeaningful(parts: seq<string>)
    requires PlainParts(parts)
    ensures Filter(parts, Meaningful()) == parts
  {
    if parts != [] {
      PlainIsMeaningful(parts[..|parts| - 1]);
      assert PlainPart(parts[|parts| - 1]);
    }
  }

  lemma DotRendered(parts: seq<string>)
    requires PlainParts(parts)
    ensures Components("." + Render(parts)) == parts
  {
    var rest := if parts == [] then "" else Join(parts, '/');
    assert "." + Render(parts) == "." + ['/'] + rest;
    SplitConcat(".", rest, '/');
    SplitNoSeparator(".", '/');
    assert Filter(["."], Meaningful()) == [] && Filter([""], Meaningful()) == [];
    FilterConcat(["."], Split(rest, '/'), Meaningful());
    PlainIsMeaningful(parts);
    if parts != [] {
      SplitRender(parts);
      SplitAbsolute(rest);
      assert Split(rest, '/') == ([""] + Split(rest, '/'))[1..];
    } else {
      assert Split("", '/') == [""];
    }
  }

  lemma RenderComponents(parts: seq<string>)
    requires PlainParts(parts)
    ensures Components(Render(parts)) == parts
  {
    SplitRender(parts);
    PlainIsMeaningful(parts);
    FilterConcat([""], parts, Meaningful());
    FilterConcat([""], [""], Meaningful());
    assert Filter([""], Meaningful()) == [] && [""] + [""] == ["", ""];
  }

  lemma JoinedComponents(root: string, relative: string)
    requires root != ""
    ensures Components(JoinPath(root, relative)) == Components(root) + Components(relative)
  {
    if root[|root| - 1] == '/' {
      var front := root[..|root| - 1];
      assert root == front + ['/'] + "" && root + relative == front + ['/'] + relative;
      SplitConcat(front, "", '/');
      SplitConcat(front, relative, '/');
      FilterConcat(Split(front, '/'), Split(relative, '/'), Meaningful());
      FilterConcat(Split(front, '/'), Split("", '/'), Meaningful());
      assert Split("", '/') == [""] && Filter([""], Meaningful()) == [];
    } else {
      assert root + "/" + relative == root + ['/'] + relative;
      SplitConcat(root, relative, '/');
      FilterConcat(Split(root, '/'), Split(relative, '/'), Meaningful());
    }
  }

  /**
   The real path is the root's components followed by the canonical parts, none of
   which climbs; the escape check therefore never fires.
   */
  lemma RealPathStaysInside(virtual: string, root: string, home: string)
    requires root != ""
    ensures var r := ToRealPath(virtual, root, home);
            var path := if Trim(virtual) == "" then home else virtual;
            && (r.Ok? <==> Normalized(path).Ok?)
            && (r.Err? ==> r == Normalized(path))
            && (r.Ok? ==> PlainParts(PartsOf(path)) && Components(r.value) == Components(root) + PartsOf(path))
  {
    var path := if Trim(virtual) == "" then home else virtual;
    NormalizedParts(path);
    if Normalized(path).Ok? {
      JoinedComponents(root, "." + Render(PartsOf(path)));
      DotRendered(PartsOf(path));
    }
  }

  /** Two virtual paths reach one place exactly when they normalise alike. */
  lemma RealPathIdentifies(v: string, w: string, root: string, home: string)
    requires root != "" && ToRealPath(v, root, home).Ok? && ToRealPath(w, root, home).Ok?
    ensures Components(ToRealPath(v, root, home).value) == Components(ToRealPath(w, root, home).value)
            <==> Sanitize(v, home) == Sanitize(w, home)
  {
    RealPathStaysInside(v, root, home);
    RealPathStaysInside(w, root, home);
    var p := if Trim(v) == "" then home else v;
    var q := if Trim(w) == "" then home else w;
    NormalizedParts(p);
    NormalizedParts(q);
    var c := Components(root);
    assert PartsOf(p) == (c + PartsOf(p))[|c|..] && PartsOf(q) == (c + PartsOf(q))[|c|..];
    RenderComponents(PartsOf(p));
    RenderComponents(PartsOf(q));
  }

  // ----- Display -----

  /** `to_display_path`: the home directory is shown as a tilde. */
  function ToDisplay(virtual: string, home: string): Result<string, PathError> {
    match Sanitize(virtual, home)
    case Err(e) => Err(e)
    case Ok(normalized) =>
      if normalized == home || home + "/" <= normalized then Ok("~" + normalized[|home|..]) else Ok(normalized)
  }

  /** What the display stands for. */
  function Expand(display: string, home: string): string {
    if display != "" && display[0] == '~' then home + display[1..] else display
  }

  /** Nothing is lost in display, for any home directory. */
  lemma DisplayExpands(virtual: string, home: string)
    requires Sanitize(virtual, home).Ok?
    ensures ToDisplay(virtual, home).Ok?
    ensures Expand(ToDisplay(virtual, home).value, home) == Sanitize(virtual, home).value
  {
    var normalized := Sanitize(virtual, home).value;
    assert normalized[0] == '/';
    if normalized == home || home + "/" <= normalized {
      assert home <= normalized;
      assert normalized == home + normalized[|home|..];
      assert ("~" + normalized[|home|..])[1..] == normalized[|home|..];
    }
  }

  /** Two paths are displayed alike exactly when they normalise alike. */
  lemma DisplayIdentifies(v: string, w: string, home: string)
    requires Sanitize(v, home).Ok? && Sanitize(w, home).Ok?
    ensures ToDisplay(v, home) == ToDisplay(w, home) <==> Sanitize(v, home) == Sanitize(w, home)
  {
    DisplayExpands(v, home);
    DisplayExpands(w, home);
  }

  // ----- Up and down -----

  lemma WalkOne(stack: seq<string>, segment: string)
    requires '/' !in segment
    ensures WalkAll(stack, Split(segment, '/')) == Walk(stack, segment)
  {
    SplitNoSeparator(segment, '/');
    assert [segment][..0] == [];
    assert WalkAll(stack, [segment]) == Walk(WalkAll(stack, []), segment);
  }

  /** Going into a directory adds its name, going up takes the last name off, and above the root there is only the root. */
  lemma UpUndoesDown(parts: seq<string>, part: string, home: string)
    requires PlainParts(parts) && PlainPart(part)
    ensures Resolve(Render(parts), part, home) == Ok(Render(parts + [part]))
    ensures Resolve(Render(parts + [part]), "..", home) == Ok(Render(parts))
    ensures Resolve("/", "..", home) == Ok("/")
  {
    WalkOne(parts, part);
    ResolveWalksOn(parts, part, home);
    WalkOne(parts + [part], "..");
    ResolveWalksOn(parts + [part], "..", home);
    assert (parts + [part])[..|parts|] == parts;
    WalkOne([], "..");
    ResolveWalksOn([], "..", home);
  }

  lemma RenderConcat(a: seq<string>, b: seq<string>)
    requires a != [] && b != []
    ensures Render(a + b) == Render(a) + "/" + Join(b, '/')
  {
    JoinConcat(a, b);
  }

  lemma {:induction false} JoinConcat(a: seq<string>, b: seq<string>)
    requires a != [] && b != []
    ensures Join(a + b, '/') == Join(a, '/') + "/" + Join(b, '/')
  {
    if |a| == 1 {
      assert (a + b)[1..] == b;
    } else {
      JoinConcat(a[1..], b);
      assert (a + b)[1..] == a[1..] + b;
    }
  }

  lemma PrefixOfRender(home: seq<string>, rest: string)
    requires PlainParts(home) && home != []
    ensures Split(Render(home) + "/" + rest, '/') == [""] + home + Split(rest, '/')
  {
    SplitConcat(Render(home), rest, '/');
    SplitRender(home);
    assert Render(home) + ['/'] + rest == Render(home) + "/" + rest;
  }

  lemma BelowIsNotRoot(home: seq<string>, parts: seq<string>, rest: string)
    requires Render(parts) == Render(home) + "/" + rest
    ensures parts != []
  {
    assert |Render(home)| >= 1;
    assert |Render(home) + "/" + rest| >= 2;
  }

  lemma BelowHomeSplits(home: seq<string>, parts: seq<string>, rest: string)
    requires PlainParts(home) && PlainParts(parts) && home != [] && Render(parts) == Render(home) + "/" + rest
    ensures home < parts
  {
    PrefixOfRender(home, rest);
    SplitRender(parts);
    BelowIsNotRoot(home, parts, rest);
    SameTails(parts, home, Split(rest, '/'));
  }

  lemma SameTails(parts: seq<string>, home: seq<string>, rest: seq<string>)
    requires [""] + parts == [""] + home + rest && rest != []
    ensures home < parts
  {
    assert parts == ([""] + parts)[1..];
    assert ([""] + home + rest)[1..] == home + rest;
  }

  lemma BelowHome(home: seq<string>, parts: seq<string>)
    requires PlainParts(home) && PlainParts(parts) && home != []
    ensures Render(home) + "/" <= Render(parts) <==> home < parts
    ensures home < parts ==> Render(parts) == Render(home) + "/" + Join(parts[|home|..], '/')
  {
    var prefix := Render(home) + "/";
    if prefix <= Render(parts) {
      assert Render(parts) == prefix + Render(parts)[|prefix|..];
      BelowHomeSplits(home, parts, Render(parts)[|prefix|..]);
    }
    if home < parts {
      assert parts == home + parts[|home|..];
      RenderConcat(home, parts[|home|..]);
    }
  }

  lemma SameRender(a: seq<string>, b: seq<string>)
    requires PlainParts(a) && PlainParts(b) && Render(a) == Render(b)
    ensures a == b
  {
    RenderComponents(a);
    RenderComponents(b);
  }

  /** A path is shown with a tilde exactly when it is the home directory or below it, component by component. */
  lemma TildeExactly(virtual: string, home: seq<string>)
    requires PlainParts(home) && home != [] && Sanitize(virtual, Render(home)).Ok?
    ensures var path := if Trim(virtual) == "" then Render(home) else virtual;
            var parts, shown := PartsOf(path), ToDisplay(virtual, Render(home));
            shown == Ok(if home == parts then "~"
                        else if home < parts then "~/" + Join(parts[|home|..], '/')
                        else Render(parts))
  {
    var path := if Trim(virtual) == "" then Render(home) else virtual;
    NormalizedParts(path);
    var parts := PartsOf(path);
    var h, normalized := Render(home), Render(parts);
    BelowHome(home, parts);
    if normalized == h {
      SameRender(parts, home);
      assert "~" + normalized[|h|..] == "~";
    } else if home < parts {
      assert normalized[|h|..] == "/" + Join(parts[|home|..], '/');
      assert "~" + ("/" + Join(parts[|home|..], '/')) == "~/" + Join(parts[|home|..], '/');
    }
  }
}
