/** The path normaliser that keys the file table. */
module Paths {
  import opened Common

  datatype HttpError =
    | EmptyPath
    | BackslashInPath
    | AbsolutePath
    | RelativeSegment
    | DuplicatePath(path: Path)
    | DeleteOfAbsent(path: Path)

  /** The characters removed by `String.prototype.trim`. */
  predicate IsSpace(c: char) {
    || '\t' <= c <= '\r' || c == ' ' || c == '\U{A0}' || c == '\U{FEFF}' || c == '\U{1680}'
    || '\U{2000}' <= c <= '\U{200A}' || c == '\U{2028}' || c == '\U{2029}' || c == '\U{202F}'
    || c == '\U{205F}' || c == '\U{3000}'
  }

  function TrimStart(s: string): string {
    if s != [] && IsSpace(s[0]) then TrimStart(s[1..]) else s
  }

  function TrimEnd(s: string): string {
    if s != [] && IsSpace(s[|s| - 1]) then TrimEnd(s[..|s| - 1]) else s
  }

  function Trim(s: string): string {
    TrimEnd(TrimStart(s))
  }

  /** `s.split("/")`: always at least one segment. */
  function Segments(s: string): (parts: seq<string>)
    ensures parts != []
  {
    if s == [] then [""]
    else
      var rest := Segments(s[1..]);
      if s[0] == '/' then [""] + rest else [[s[0]] + rest[0]] + rest[1..]
  }

  /** `parts.join("/")`. */
  function Join(parts: seq<string>): string {
    if parts == [] then ""
    else if |parts| == 1 then parts[0]
    else parts[0] + "/" + Join(parts[1..])
  }

  function NormalizePath(raw: string): Result<Path, HttpError> {
    var candidate := Trim(raw);
    if candidate == "" then Failure(EmptyPath)
    else if '\\' in candidate then Failure(BackslashInPath)
    else if candidate[0] == '/' then Failure(AbsolutePath)
    else if exists segment | segment in Segments(candidate) :: segment == "" || segment == "." || segment == ".."
    then Failure(RelativeSegment)
    else Success(candidate)
  }

  /** A path the table can be keyed by: plain segments joined by single slashes, no padding, no backslash. */
  ghost predicate Canonical(p: Path) {
    exists parts: seq<string> ::
      && parts != []
      && p == Join(parts) && p != ""
      && (forall part | part in parts ::
            part != "" && part != "." && part != ".." && '/' !in part && '\\' !in part)
      && !IsSpace(p[0]) && !IsSpace(p[|p| - 1])
  }

  /** Joining commutes with putting one more segment, or one more character, in front. */
  lemma JoinMore(first: string, rest: seq<string>)
    requires rest != []
    ensures Join([first] + rest) == first + "/" + Join(rest)
  {
    assert ([first] + rest)[1..] == rest;
    hide Join;
  }

  lemma JoinLonger(c: char, rest: seq<string>)
    requires rest != []
    ensures Join([[c] + rest[0]] + rest[1..]) == [c] + Join(rest)
  {
    var more := rest[1..];
    assert [rest[0]] + more == rest;
    if more == [] {
      assert Join([[c] + rest[0]] + more) == [c] + rest[0];
    } else {
      hide Join;
      JoinMore([c] + rest[0], more);
      JoinMore(rest[0], more);
      Associates([c], rest[0], "/" + Join(more));
      Associates([c] + rest[0], "/", Join(more));
      Associates(rest[0], "/", Join(more));
    }
  }

  lemma Associates(a: string, b: string, c: string)
    ensures (a + b) + c == a + (b + c)
  {}

  lemma {:induction false} JoinSegments(s: string)
    ensures Join(Segments(s)) == s
  {
    if s != [] {
      JoinSegments(s[1..]);
      var rest := Segments(s[1..]);
      hide Join;
      JoinMore("", rest);
      JoinLonger(s[0], rest);
      assert [s[0]] + s[1..] == s;
    }
  }

  lemma {:induction false} SegmentCharacters(s: string, part: string, c: char)
    requires part in Segments(s) && c in part
    ensures c != '/' && c in s
  {
    assert s != [];
    var rest := Segments(s[1..]);
    assert rest[0] in rest;
    if part in rest {
      SegmentCharacters(s[1..], part, c);
    } else if c != s[0] {
      assert s[0] != '/' && part == [s[0]] + rest[0];
      SegmentCharacters(s[1..], rest[0], c);
    } else {
      assert s[0] == '/' ==> part == "";
    }
  }

  /** Moving the first character of a join into or out of its first part. */
  lemma JoinPeel(c: char, first: string, others: seq<string>)
    ensures Join([[c] + first] + others) == [c] + Join([first] + others)
  {
    assert ([[c] + first] + others)[1..] == others;
    assert ([first] + others)[1..] == others;
  }

  lemma {:induction false} SegmentsJoin(first: string, others: seq<string>)
    requires '/' !in first && forall part | part in others :: '/' !in part
    ensures Segments(Join([first] + others)) == [first] + others
    decreases |others|, |first|
  {
    if first != "" {
      SegmentsJoin(first[1..], others);
      JoinPeel(first[0], first[1..], others);
      assert first == [first[0]] + first[1..];
      var rest := Join([first[1..]] + others);
      assert ([first[0]] + rest)[1..] == rest;
    } else if others != [] {
      SegmentsJoin(others[0], others[1..]);
      assert [others[0]] + others[1..] == others;
      assert ([first] + others)[1..] == others;
      assert ("/" + Join(others))[1..] == Join(others);
    }
  }

  lemma {:induction false} JoinCharacters(parts: seq<string>, c: char)
    requires c != '/' && forall part | part in parts :: c !in part
    ensures c !in Join(parts)
  {
    if |parts| > 1 { JoinCharacters(parts[1..], c); }
  }

  lemma {:induction false} TrimmedEnds(s: string)
    ensures var r := Trim(s); r == "" || (!IsSpace(r[0]) && !IsSpace(r[|r| - 1]))
  {
    StartTrimmed(s);
    EndTrimmed(TrimStart(s));
  }

  lemma {:induction false} StartTrimmed(s: string)
    ensures var r := TrimStart(s); r == "" || !IsSpace(r[0])
  {
    if s != [] && IsSpace(s[0]) { StartTrimmed(s[1..]); }
  }

  lemma {:induction false} EndTrimmed(s: string)
    ensures var r := TrimEnd(s); r == "" || (r[0] == s[0] && !IsSpace(r[|r| - 1]))
    ensures |TrimEnd(s)| <= |s|
  {
    if s != [] && IsSpace(s[|s| - 1]) { EndTrimmed(s[..|s| - 1]); }
  }

  ghost predicate Blank(s: string) {
    forall c | c in s :: IsSpace(c)
  }

  /** Trimming takes whitespace off both ends and nothing else. */
  lemma TrimExact(s: string) returns (front: string, back: string)
    ensures s == front + Trim(s) + back && Blank(front) && Blank(back)
  {
    front := StartExact(s);
    back := EndExact(TrimStart(s));
    assert front + (Trim(s) + back) == front + Trim(s) + back;
  }

  lemma {:induction false} StartExact(s: string) returns (front: string)
    ensures s == front + TrimStart(s) && Blank(front)
  {
    if s == [] || !IsSpace(s[0]) { return ""; }
    var rest := StartExact(s[1..]);
    front := [s[0]] + rest;
    assert s == [s[0]] + s[1..];
  }

  lemma {:induction false} EndExact(s: string) returns (back: string)
    ensures s == TrimEnd(s) + back && Blank(back)
  {
    if s == [] || !IsSpace(s[|s| - 1]) { return ""; }
    var rest := EndExact(s[..|s| - 1]);
    back := rest + [s[|s| - 1]];
    assert s == s[..|s| - 1] + [s[|s| - 1]];
  }

  /** Which refusal a raw path gets: a blank one, one with a backslash, an absolute one, and any other that is not canonical. */
  lemma RefusedAs(raw: string)
    requires NormalizePath(raw).Failure?
    ensures NormalizePath(raw).error ==
            if Blank(raw) then EmptyPath
            else if '\\' in raw then BackslashInPath
            else if "/" <= Trim(raw) then AbsolutePath
            else RelativeSegment
  {
    var front, back := TrimExact(raw);
    TrimmedEnds(raw);
    var r := Trim(raw);
    assert r != "" ==> r[0] in raw;
    assert forall c :: c in raw <==> c in front || c in r || c in back;
    hide Trim, Segments;
  }

  /** The normaliser accepts exactly the raw paths whose trimmed form is canonical, and returns that form. */
  lemma NormalizeExact(raw: string, p: Path)
    ensures NormalizePath(raw) == Success(p) <==> p == Trim(raw) && Canonical(p)
  {
    var candidate := Trim(raw);
    TrimmedEnds(raw);
    JoinSegments(candidate);
    if NormalizePath(raw) == Success(p) {
      var parts := Segments(candidate);
      forall part | part in parts
        ensures part != "" && part != "." && part != ".." && '/' !in part && '\\' !in part {
        if '/' in part { SegmentCharacters(candidate, part, '/'); }
        if '\\' in part { SegmentCharacters(candidate, part, '\\'); }
      }
    }
    if p == candidate && Canonical(p) {
      var parts: seq<string> :|
        && parts != [] && p == Join(parts)
        && (forall part | part in parts ::
              part != "" && part != "." && part != ".." && '/' !in part && '\\' !in part);
      SegmentsJoin(parts[0], parts[1..]);
      assert parts == [parts[0]] + parts[1..];
      JoinCharacters(parts, '\\');
      assert parts[0] in parts && candidate[0] != '/';
    }
  }

  /** Normalising is idempotent, so a path and its normal form name the same entry. */
  lemma NormalizeIdempotent(raw: string)
    requires NormalizePath(raw).Success?
    ensures NormalizePath(NormalizePath(raw).value) == NormalizePath(raw)
  {
    var p := NormalizePath(raw).value;
    NormalizeExact(raw, p);
    assert TrimStart(p) == p && TrimEnd(p) == p;
    NormalizeExact(p, p);
  }
}
