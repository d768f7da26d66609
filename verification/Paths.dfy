/** Path strings of the store protocol: splitting, joining and normalisation. */
module Paths {
  import opened Wrappers

  datatype PathError =
    | EmptyPath
    | NulInPath
    | AbsolutePath
    | DriveOrUnc
    | Traversal
    | DotSegment
    | ResolvesToEmpty

  // ---------- splitting and joining on '/' ----------

  function Split(s: string): (parts: seq<string>)
    ensures |parts| >= 1
  {
    if s == [] then [[]]
    else if s[0] == '/' then [[]] + Split(s[1..])
    else
      var rest := Split(s[1..]);
      [[s[0]] + rest[0]] + rest[1..]
  }

  function Join(parts: seq<string>): string {
    if |parts| == 0 then ""
    else if |parts| == 1 then parts[0]
    else parts[0] + "/" + Join(parts[1..])
  }

  predicate SlashFree(parts: seq<string>) {
    forall i :: 0 <= i < |parts| ==> '/' !in parts[i]
  }

  lemma {:induction false} SplitSegment(seg: string, rest: string)
    requires '/' !in seg
    ensures Split(seg) == [seg]
    ensures Split(seg + "/" + rest) == [seg] + Split(rest)
  {
    if seg == "" {
      assert seg + "/" + rest == "/" + rest;
      assert ("/" + rest)[1..] == rest;
    } else {
      SplitSegment(seg[1..], rest);
      assert (seg + "/" + rest)[1..] == seg[1..] + "/" + rest;
      assert [seg[0]] + seg[1..] == seg;
    }
  }

  /** Joining slash-free parts and splitting again gives the parts back. */
  lemma {:induction false} SplitJoin(parts: seq<string>)
    requires |parts| >= 1 && SlashFree(parts)
    ensures Split(Join(parts)) == parts
  {
    if |parts| == 1 {
      SplitSegment(parts[0], "");
      assert [parts[0]] == parts;
    } else {
      SplitSegment(parts[0], Join(parts[1..]));
      SplitJoin(parts[1..]);
      assert [parts[0]] + parts[1..] == parts;
    }
  }

  /** Splitting loses nothing: joining the parts gives the string back. */
  lemma {:induction false} JoinSplit(s: string)
    ensures SlashFree(Split(s)) && Join(Split(s)) == s
  {
    if s != [] {
      JoinSplit(s[1..]);
      var rest := Split(s[1..]);
      var parts := Split(s);
      if s[0] == '/' {
        assert parts[1..] == rest;
        assert parts[0] + "/" + Join(rest) == s;
      } else {
        assert parts[1..] == rest[1..];
        assert [s[0]] + s[1..] == s;
        if |rest| > 1 {
          assert [s[0]] + (rest[0] + "/" + Join(rest[1..])) == parts[0] + "/" + Join(parts[1..]);
        }
      }
    }
  }

  lemma {:induction false} JoinAppend(a: seq<string>, b: seq<string>)
    requires |a| >= 1 && |b| >= 1
    ensures Join(a + b) == Join(a) + "/" + Join(b)
  {
    if |a| == 1 {
      assert (a + b)[1..] == b;
    } else {
      JoinAppend(a[1..], b);
      assert (a + b)[1..] == a[1..] + b;
      assert a[0] + "/" + (Join(a[1..]) + "/" + Join(b)) == Join(a) + "/" + Join(b);
    }
  }

  /** Text appended to a joined path lands on its last part. */
  lemma {:induction false} JoinAppendText(parts: seq<string>, text: string)
    requires |parts| >= 1
    ensures Join(parts) + text == Join(parts[..|parts| - 1] + [parts[|parts| - 1] + text])
  {
    var longer := parts[..|parts| - 1] + [parts[|parts| - 1] + text];
    if |parts| > 1 {
      JoinAppendText(parts[1..], text);
      assert longer[1..] == parts[1..][..|parts| - 2] + [parts[|parts| - 1] + text];
      assert parts[0] + "/" + Join(parts[1..]) + text == parts[0] + "/" + (Join(parts[1..]) + text);
    }
  }

  /** Two dots in a row, the test recycle.restore makes on the whole string. */
  predicate HasDotDot(s: string) {
    exists i :: 0 <= i < |s| - 1 && s[i] == '.' && s[i + 1] == '.'
  }

  lemma {:induction false} JoinDotDot(parts: seq<string>)
    requires |parts| >= 1
    ensures HasDotDot(Join(parts)) <==> exists i :: 0 <= i < |parts| && HasDotDot(parts[i])
  {
    if |parts| > 1 {
      JoinDotDot(parts[1..]);
      AroundSlash(parts[0], Join(parts[1..]));
      hide HasDotDot;
      if HasDotDot(Join(parts[1..])) {
        var j :| 0 <= j < |parts[1..]| && HasDotDot(parts[1..][j]);
        assert HasDotDot(parts[j + 1]);
      }
      if j :| 0 <= j < |parts| && HasDotDot(parts[j]) && j > 0 {
        assert HasDotDot(parts[1..][j - 1]);
      }
    }
  }

  lemma AroundSlash(a: string, b: string)
    ensures HasDotDot(a + "/" + b) <==> HasDotDot(a) || HasDotDot(b)
  {
    var s := a + "/" + b;
    assert s[|a|] == '/' && s[..|a|] == a && s[|a| + 1..] == b;
    if i :| 0 <= i < |s| - 1 && s[i] == '.' && s[i + 1] == '.' {
      if i < |a| {
        assert a[i] == '.' && i + 1 != |a| && a[i + 1] == '.';
      } else {
        assert b[i - |a| - 1] == '.' && b[i - |a|] == '.';
      }
    }
    if k :| 0 <= k < |a| - 1 && a[k] == '.' && a[k + 1] == '.' {
      assert s[k] == '.' && s[k + 1] == '.';
    }
    if k :| 0 <= k < |b| - 1 && b[k] == '.' && b[k + 1] == '.' {
      assert s[|a| + 1 + k] == '.' && s[|a| + 1 + (k + 1)] == '.';
    }
  }

  // ---------- normalisation ----------

  function Slashed(raw: string): (r: string)
    ensures |r| == |raw| && '\\' !in r
  {
    seq(|raw|, i requires 0 <= i < |raw| => if raw[i] == '\\' then '/' else raw[i])
  }

  predicate IsAsciiAlphabetic(c: char) {
    'a' <= c <= 'z' || 'A' <= c <= 'Z'
  }

  predicate IsDrive(raw: string) {
    |raw| >= 2 && raw[1] == ':' && IsAsciiAlphabetic(raw[0])
  }

  predicate IsDriveOrUnc(raw: string) {
    IsDrive(raw) || "\\\\" <= raw
  }

  /** Segments a path loses on normalisation. */
  predicate Trivial(seg: string) {
    seg == "" || seg == "."
  }

  /** Segments that make a path unacceptable. */
  predicate Forbidden(seg: string) {
    |seg| > 0 && seg[0] == '.' && seg != "."
  }

  /** What one part contributes to a normalised path. */
  function Real(part: string): seq<string> {
    if Trivial(part) then [] else [part]
  }

  function Kept(parts: seq<string>): (kept: seq<string>) {
    if parts == [] then [] else Real(parts[0]) + Kept(parts[1..])
  }

  /** The error of the first forbidden part, if there is one. */
  function FirstForbidden(parts: seq<string>): Option<PathError> {
    if parts == [] then None
    else if Forbidden(parts[0]) then Some(if parts[0] == ".." then Traversal else DotSegment)
    else FirstForbidden(parts[1..])
  }

  /** Checks made on the raw string before it is split. */
  function RawError(raw: string): Option<PathError> {
    if raw == "" then Some(EmptyPath)
    else if '\0' in raw then Some(NulInPath)
    else if raw[0] == '/' || raw[0] == '~' then Some(AbsolutePath)
    else if IsDriveOrUnc(raw) then Some(DriveOrUnc)
    else None
  }

  /** normalize_path, with the result as its segments (the source joins them with '/'). */
  function Normalize(raw: string): Result<seq<string>, PathError> {
    var parts := Split(Slashed(raw));
    if RawError(raw).Some? then Err(RawError(raw).value)
    else if FirstForbidden(parts).Some? then Err(FirstForbidden(parts).value)
    else if Kept(parts) == [] then Err(ResolvesToEmpty)
    else Ok(Kept(parts))
  }

  lemma {:induction false} KeptAppend(a: seq<string>, b: seq<string>)
    ensures Kept(a + b) == Kept(a) + Kept(b)
  {
    hide Real;
    if a == [] {
      assert a + b == b;
    } else {
      KeptAppend(a[1..], b);
      assert (a + b)[1..] == a[1..] + b;
      assert Kept(a + b) == Real(a[0]) + (Kept(a[1..]) + Kept(b));
    }
  }

  lemma {:induction false} ForbiddenAppend(a: seq<string>, b: seq<string>)
    ensures FirstForbidden(a + b) == if FirstForbidden(a).Some? then FirstForbidden(a) else FirstForbidden(b)
  {
    if a == [] {
      assert a + b == b;
    } else {
      ForbiddenAppend(a[1..], b);
      assert (a + b)[1..] == a[1..] + b;
    }
  }

  /** The loop of normalize_path: one pass, one error exit, segments pushed as they come. */
  method NormalizePath(raw: string) returns (r: Result<string, PathError>)
    ensures r.Ok? <==> Normalize(raw).Ok?
    ensures r.Ok? ==> r.value == Join(Normalize(raw).value)
    ensures r.Err? ==> r.error == Normalize(raw).error
  {
    if raw == "" { return Err(EmptyPath); }
    if '\0' in raw { return Err(NulInPath); }
    if raw[0] == '/' || raw[0] == '~' { return Err(AbsolutePath); }
    if IsDriveOrUnc(raw) { return Err(DriveOrUnc); }
    var parts := Split(Slashed(raw));
    var out: seq<string> := [];
    var i := 0;
    while i < |parts|
      invariant 0 <= i <= |parts|
      invariant out == Kept(parts[..i])
      invariant FirstForbidden(parts[..i]) == None
    {
      var seg := parts[i];
      assert parts == parts[..i] + parts[i..];
      ForbiddenAppend(parts[..i], parts[i..]);
      ForbiddenAppend(parts[..i], [seg]);
      KeptAppend(parts[..i], [seg]);
      assert parts[..i + 1] == parts[..i] + [seg];
      i := i + 1;
      if seg == "" || seg == "." { continue; }
      if seg == ".." { return Err(Traversal); }
      if seg[0] == '.' { return Err(DotSegment); }
      out := out + [seg];
    }
    assert parts[..|parts|] == parts;
    if out == [] { return Err(ResolvesToEmpty); }
    return Ok(Join(out));
  }

  // ---------- what normalised paths look like ----------

  /** A segment a normalised path can hold. */
  predicate CleanSeg(seg: string) {
    |seg| > 0 && seg[0] != '.' && '/' !in seg && '\\' !in seg && '\0' !in seg
  }

  predicate Clean(segs: seq<string>) {
    |segs| >= 1 && forall i :: 0 <= i < |segs| ==> CleanSeg(segs[i])
  }

  /** First segments that normalize_path itself would refuse at the head of a path. */
  predicate TildeOrDrive(seg: string) {
    (|seg| > 0 && seg[0] == '~') || IsDrive(seg)
  }

  lemma {:induction false} SplitChars(s: string, i: nat, c: char)
    requires i < |Split(s)| && c in Split(s)[i]
    ensures c in s && c != '/'
  {
    var rest := Split(s[1..]);
    if s[0] == '/' {
      SplitChars(s[1..], i - 1, c);
    } else if i == 0 {
      if c != s[0] {
        SplitChars(s[1..], 0, c);
      }
    } else {
      SplitChars(s[1..], i, c);
    }
  }

  lemma {:induction false} KeptOrigin(parts: seq<string>, i: nat) returns (j: nat)
    requires FirstForbidden(parts) == None && i < |Kept(parts)|
    ensures j < |parts| && parts[j] == Kept(parts)[i]
    ensures !Trivial(Kept(parts)[i]) && !Forbidden(Kept(parts)[i])
  {
    if Trivial(parts[0]) {
      j := KeptOrigin(parts[1..], i);
      j := j + 1;
    } else if i == 0 {
      j := 0;
    } else {
      j := KeptOrigin(parts[1..], i - 1);
      j := j + 1;
    }
  }

  /** A normalised path consists of clean segments, and splits back to exactly those. */
  lemma NormalizedIsClean(raw: string)
    requires Normalize(raw).Ok?
    ensures Clean(Normalize(raw).value)
    ensures Split(Join(Normalize(raw).value)) == Normalize(raw).value
  {
    var s := Slashed(raw);
    var parts := Split(s);
    var segs := Normalize(raw).value;
    forall i | 0 <= i < |segs| ensures CleanSeg(segs[i]) {
      var j := KeptOrigin(parts, i);
      forall c | c in segs[i] ensures c in s && c != '/' {
        SplitChars(s, j, c);
      }
    }
    SplitJoin(segs);
  }

  lemma {:induction false} JoinChars(segs: seq<string>, c: char)
    requires c != '/' && forall i :: 0 <= i < |segs| ==> c !in segs[i]
    ensures c !in Join(segs)
  {
    if |segs| > 1 {
      JoinChars(segs[1..], c);
    }
  }

  lemma {:induction false} KeptClean(segs: seq<string>)
    requires forall i :: 0 <= i < |segs| ==> CleanSeg(segs[i])
    ensures Kept(segs) == segs && FirstForbidden(segs) == None
  {
    if segs != [] {
      KeptClean(segs[1..]);
      assert [segs[0]] + segs[1..] == segs;
    }
  }

  lemma {:induction false} KeptNontrivial(parts: seq<string>)
    requires forall i :: 0 <= i < |parts| ==> !Trivial(parts[i])
    ensures Kept(parts) == parts
  {
    if parts != [] {
      KeptNontrivial(parts[1..]);
      assert [parts[0]] + parts[1..] == parts;
    }
  }

  lemma SlashedIdentity(s: string)
    requires '\\' !in s
    ensures Slashed(s) == s
  {
  }

  /** Facts about the string form of a clean path. */
  lemma CleanJoin(segs: seq<string>)
    requires Clean(segs)
    ensures Join(segs) != "" && Join(segs)[0] == segs[0][0]
    ensures '\\' !in Join(segs) && '\0' !in Join(segs)
    ensures Split(Join(segs)) == segs
    ensures IsDrive(Join(segs)) <==> IsDrive(segs[0])
  {
    JoinChars(segs, '\\');
    JoinChars(segs, '\0');
    SplitJoin(segs);
  }

  /** Normalising is idempotent exactly when the first kept segment neither starts with '~'
      nor looks like a drive; otherwise the second pass refuses its own output. */
  lemma RenormalizeIff(segs: seq<string>)
    requires Clean(segs)
    ensures Normalize(Join(segs)) == Ok(segs) <==> !TildeOrDrive(segs[0])
    ensures Normalize(Join(segs)).Err? <==> TildeOrDrive(segs[0])
  {
    var s := Join(segs);
    CleanJoin(segs);
    SlashedIdentity(s);
    KeptClean(segs);
    assert s[0] != '\\';
  }

  /** Every clean path is the normalisation of some raw path, so Clean is the exact image. */
  lemma CleanIsReachable(segs: seq<string>)
    requires Clean(segs)
    ensures Normalize("./" + Join(segs)) == Ok(segs)
  {
    var text := Join(segs);
    CleanJoin(segs);
    KeptClean(segs);
    DotSlash(text);
    hide Kept, FirstForbidden, Split, Join, Slashed;
    DotParts(segs);
  }

  lemma DotSlash(text: string)
    requires text != "" && '\\' !in text && '\0' !in text
    ensures var s := "./" + text; Slashed(s) == s && Split(s) == ["."] + Split(text) && RawError(s) == None
  {
    hide Split, Slashed;
    var s := "./" + text;
    assert "." + "/" + text == s;
    SlashedIdentity(s);
    SplitSegment(".", text);
    assert s[0] == '.' && s[1] == '/' && '\0' !in s;
  }

  lemma DotParts(segs: seq<string>)
    requires Kept(segs) == segs && FirstForbidden(segs) == None
    ensures Kept(["."] + segs) == segs && FirstForbidden(["."] + segs) == None
  {
    assert (["."] + segs)[1..] == segs;
    assert Real(".") + Kept(segs) == segs;
  }

  /** Two kinds of input whose normal form normalize_path then refuses. */
  lemma RenormalizeWitness(name: string)
    requires CleanSeg(name)
    ensures var segs := ["~" + name];
            Normalize("./" + Join(segs)) == Ok(segs) && Normalize(Join(segs)).Err?
    ensures var segs := ["C:", name];
            Normalize("./" + Join(segs)) == Ok(segs) && Normalize(Join(segs)).Err?
  {
    var a, b := ["~" + name], ["C:", name];
    CleanIsReachable(a);
    CleanIsReachable(b);
    RenormalizeIff(a);
    RenormalizeIff(b);
  }

  // ---------- which paths have a normal form, and which it is ----------

  /** The parts of a path between separators of either kind. */
  predicate PartsOf(raw: string, parts: seq<string>) {
    && parts != [] && SlashFree(parts) && |Join(parts)| == |raw|
    && forall i :: 0 <= i < |raw| ==> Join(parts)[i] == if raw[i] == '\\' then '/' else raw[i]
  }

  /** The parts that say something, in their order. */
  predicate Spoken(parts: seq<string>, said: seq<string>) {
    if parts == [] then said == []
    else if parts[0] == "" || parts[0] == "." then Spoken(parts[1..], said)
    else said != [] && said[0] == parts[0] && Spoken(parts[1..], said[1..])
  }

  /** A path that could lead out of the store: absolute, of a home directory, of a drive or of another machine. */
  predicate Outward(raw: string)
    requires raw != ""
  {
    || raw[0] == '/' || raw[0] == '~' || (raw[0] == '\\' && |raw| > 1 && raw[1] == '\\')
    || (|raw| > 1 && raw[1] == ':' && ('a' <= raw[0] <= 'z' || 'A' <= raw[0] <= 'Z'))
  }

  lemma {:induction false} KeptSpoken(parts: seq<string>)
    ensures Spoken(parts, Kept(parts))
    ensures Kept(parts) != [] <==> exists part <- parts :: part != "" && part != "."
  {
    if parts != [] {
      KeptSpoken(parts[1..]);
      assert parts == [parts[0]] + parts[1..];
      if parts[0] != "" && parts[0] != "." {
        assert ([parts[0]] + Kept(parts[1..]))[1..] == Kept(parts[1..]);
        assert parts[0] in parts;
      } else {
        assert [] + Kept(parts[1..]) == Kept(parts[1..]);
        assert forall part :: part in parts <==> part == parts[0] || part in parts[1..];
      }
    }
  }

  lemma {:induction false} ForbiddenIff(parts: seq<string>)
    ensures FirstForbidden(parts) == None <==> forall part <- parts :: part != "" && part[0] == '.' ==> part == "."
  {
    if parts != [] {
      ForbiddenIff(parts[1..]);
      assert parts == [parts[0]] + parts[1..];
    }
  }

  /** A path has a normal form exactly when it is not empty, holds no NUL, does not lead outward, none of its parts
      starts with a dot but "." itself, and some part says something; its normal form is those that do. */
  lemma NormalFormIs(raw: string, parts: seq<string>)
    requires PartsOf(raw, parts)
    ensures Normalize(raw).Ok? <==>
              && raw != "" && '\0' !in raw && !Outward(raw)
              && (forall part <- parts :: part != "" && part[0] == '.' ==> part == ".")
              && (exists part <- parts :: part != "" && part != ".")
    ensures Normalize(raw).Ok? ==> Spoken(parts, Normalize(raw).value)
  {
    hide Kept, FirstForbidden, Spoken, Split, Join;
    SplitJoin(parts);
    assert Join(parts) == Slashed(raw);
    KeptSpoken(parts);
    ForbiddenIff(parts);
  }
}
