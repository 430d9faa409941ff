/** Slash-separated path text: strings.Split, path.Clean and path.Join. */
module PathText {

  predicate SlashFree(s: string) { forall i :: 0 <= i < |s| ==> s[i] != '/' }

  // strings.Split(s, "/")
  function Split(s: string): (parts: seq<string>)
    ensures |parts| >= 1
    ensures forall i :: 0 <= i < |parts| ==> SlashFree(parts[i])
  {
    if s == [] then [[]]
    else
      var rest := Split(s[1..]);
      if s[0] == '/' then [[]] + rest
      else [[s[0]] + rest[0]] + rest[1..]
  }

  // strings.Join(parts, "/")
  function Join(parts: seq<string>): string {
    if parts == [] then []
    else if |parts| == 1 then parts[0]
    else parts[0] + "/" + Join(parts[1..])
  }

  // strings.Trim(s, "/")
  function TrimLeft(s: string): string { if s != [] && s[0] == '/' then TrimLeft(s[1..]) else s }

  function TrimRight(s: string): string {
    if s != [] && s[|s| - 1] == '/' then TrimRight(s[..|s| - 1]) else s
  }

  function Trim(s: string): string { TrimRight(TrimLeft(s)) }

  // One component of path.Clean's left-to-right pass.
  function Push(kept: seq<string>, part: string, rooted: bool): seq<string> {
    if part == "" || part == "." then kept
    else if part == ".." then
      if kept != [] && kept[|kept| - 1] != ".." then kept[..|kept| - 1]
      else if rooted then kept
      else kept + [part]
    else kept + [part]
  }

  function Reduce(kept: seq<string>, parts: seq<string>, rooted: bool): seq<string>
    decreases |parts|
  {
    if parts == [] then kept else Reduce(Push(kept, parts[0], rooted), parts[1..], rooted)
  }

  // path.Clean
  function Clean(s: string): string {
    if s == "" then "."
    else
      var rooted := s[0] == '/';
      var kept := Reduce([], Split(s), rooted);
      if rooted then "/" + Join(kept) else if kept == [] then "." else Join(kept)
  }

  // path.Join(a, b)
  function JoinPath(a: string, b: string): string {
    if a == "" && b == "" then "" else if a == "" then Clean(b) else if b == "" then Clean(a) else Clean(a + "/" + b)
  }

  predicate Plain(part: string) { part != "" && part != "." && part != ".." && SlashFree(part) }

  predicate AllPlain(parts: seq<string>) { forall i :: 0 <= i < |parts| ==> Plain(parts[i]) }

  predicate Parts(parts: seq<string>) { forall i :: 0 <= i < |parts| ==> parts[i] != "" && SlashFree(parts[i]) }

  // ---------------------------------------------------------------- lemmas

  lemma {:induction false} SplitSlashFree(s: string)
    requires SlashFree(s)
    ensures Split(s) == [s]
  {
    if s != [] {
      SplitSlashFree(s[1..]);
      assert [s[0]] + s[1..] == s;
    }
  }

  lemma {:induction false} SplitConcat(a: string, b: string)
    ensures Split(a + "/" + b) == Split(a) + Split(b)
  {
    var s := a + "/" + b;
    if a == [] {
      assert s[1..] == b;
    } else {
      assert s[1..] == a[1..] + "/" + b;
      SplitConcat(a[1..], b);
    }
  }

  lemma {:induction false} SplitJoin(parts: seq<string>)
    requires parts != [] && forall i :: 0 <= i < |parts| ==> SlashFree(parts[i])
    ensures Split(Join(parts)) == parts
  {
    if |parts| == 1 {
      SplitSlashFree(parts[0]);
    } else {
      SplitConcat(parts[0], Join(parts[1..]));
      SplitSlashFree(parts[0]);
      SplitJoin(parts[1..]);
    }
  }

  lemma {:induction false} JoinConcat(a: seq<string>, b: seq<string>)
    requires a != [] && b != []
    ensures Join(a + b) == Join(a) + "/" + Join(b)
  {
    if |a| == 1 {
      assert (a + b)[1..] == b;
    } else {
      assert (a + b)[1..] == a[1..] + b;
      JoinConcat(a[1..], b);
      assert a[0] + "/" + (Join(a[1..]) + "/" + Join(b)) == (a[0] + "/" + Join(a[1..])) + "/" + Join(b);
    }
  }

  lemma {:induction false} JoinSplit(s: string)
    ensures Join(Split(s)) == s
  {
    if s != [] {
      var rest := Split(s[1..]);
      JoinSplit(s[1..]);
      if s[0] == '/' {
        JoinSlash(rest);
      } else {
        JoinLonger(s[0], rest);
      }
    }
  }

  lemma JoinSlash(rest: seq<string>)
    requires rest != []
    ensures Join([[]] + rest) == "/" + Join(rest)
  {
    assert ([[]] + rest)[1..] == rest;
  }

  lemma JoinLonger(c: char, rest: seq<string>)
    requires rest != []
    ensures Join([[c] + rest[0]] + rest[1..]) == [c] + Join(rest)
  {
    var all := [[c] + rest[0]] + rest[1..];
    assert all[1..] == rest[1..];
    if |rest| > 1 {
      assert [c] + (rest[0] + "/" + Join(rest[1..])) == ([c] + rest[0]) + "/" + Join(rest[1..]);
    }
  }

  // Joined nonempty parts neither start nor end with a slash.
  lemma {:induction false} JoinEnds(parts: seq<string>)
    requires parts != [] && Parts(parts)
    ensures var j := Join(parts); j != [] && j[0] != '/' && j[|j| - 1] != '/'
  {
    if |parts| > 1 {
      JoinEnds(parts[1..]);
    }
  }

  lemma {:induction false} ReducePlain(kept: seq<string>, parts: seq<string>, rooted: bool)
    requires AllPlain(parts)
    ensures Reduce(kept, parts, rooted) == kept + parts
    decreases |parts|
  {
    if parts != [] {
      ReducePlain(kept + [parts[0]], parts[1..], rooted);
      assert kept + [parts[0]] + parts[1..] == kept + parts;
    }
  }

  lemma {:induction false} ReduceParts(kept: seq<string>, parts: seq<string>, rooted: bool)
    requires Parts(kept) && forall i :: 0 <= i < |parts| ==> SlashFree(parts[i])
    ensures Parts(Reduce(kept, parts, rooted))
    decreases |parts|
  {
    if parts != [] {
      ReduceParts(Push(kept, parts[0], rooted), parts[1..], rooted);
    }
  }

  // A rooted path that Clean leaves alone is "/" followed by nonempty components.
  lemma CleanFixpointRooted(s: string)
    requires s != "" && s[0] == '/' && Clean(s) == s && s != "/"
    ensures var parts := Split(Trim(s)); Parts(parts) && s == "/" + Join(parts) && Trim(s) == Join(parts)
  {
    var kept := Reduce([], Split(s), true);
    ReduceParts([], Split(s), true);
    var j := Join(kept);
    assert kept != [];
    JoinEnds(kept);
    assert s[1..] == j;
    assert TrimLeft(s) == TrimLeft(s[1..]) == j && Trim(s) == j;
    SplitJoin(kept);
  }

  // A relative path with plain components is its own Clean.
  lemma CleanPlain(parts: seq<string>)
    requires parts != [] && AllPlain(parts)
    ensures Clean(Join(parts)) == Join(parts)
  {
    var s := Join(parts);
    JoinEnds(parts);
    SplitJoin(parts);
    ReducePlain([], parts, false);
    assert [] + parts == parts;
  }

  // ------------------------------------------------------ what Clean removes

  lemma {:induction false} ReduceConcat(kept: seq<string>, a: seq<string>, b: seq<string>, rooted: bool)
    ensures Reduce(kept, a + b, rooted) == Reduce(Reduce(kept, a, rooted), b, rooted)
    decreases |a|
  {
    if a == [] {
      assert a + b == b;
    } else {
      assert (a + b)[0] == a[0] && (a + b)[1..] == a[1..] + b;
      ReduceConcat(Push(kept, a[0], rooted), a[1..], b, rooted);
    }
  }

  // Behind plain components a dot or an empty component changes nothing, and two
  // dots take away the component before them.
  lemma CleanDrops(a: seq<string>, x: string, b: seq<string>, rooted: bool)
    requires AllPlain(a) && Plain(x)
    ensures Reduce([], a + ["."] + b, rooted) == Reduce([], a + b, rooted)
    ensures Reduce([], a + [""] + b, rooted) == Reduce([], a + b, rooted)
    ensures Reduce([], a + [x, ".."] + b, rooted) == Reduce([], a + b, rooted)
  {
    hide AllPlain, Plain;
    ReducePlain([], a, rooted);
    assert [] + a == a;
    ReduceConcat([], a, b, rooted);
    DropsOne(a, ".", b, rooted);
    DropsOne(a, "", b, rooted);
    assert a + [x, ".."] + b == a + ([x, ".."] + b);
    ReduceConcat([], a, [x, ".."] + b, rooted);
    DropsTwo(a, x, b, rooted);
  }

  lemma DropsOne(a: seq<string>, y: string, b: seq<string>, rooted: bool)
    requires AllPlain(a) && y in {".", ""}
    ensures Reduce([], a + [y] + b, rooted) == Reduce(a, b, rooted)
  {
    assert a + [y] + b == a + ([y] + b) && [] + a == a;
    ReducePlain([], a, rooted);
    ReduceConcat([], a, [y] + b, rooted);
    assert ([y] + b)[1..] == b;
  }

  lemma DropsTwo(a: seq<string>, x: string, b: seq<string>, rooted: bool)
    requires Plain(x)
    ensures Reduce(a, [x, ".."] + b, rooted) == Reduce(a, b, rooted)
  {
    var all := [x, ".."] + b;
    assert all[0] == x && all[1..][0] == ".." && all[1..][1..] == b;
    assert Push(a, x, rooted) == a + [x] && Push(a + [x], "..", rooted) == a;
  }

  // At the front, two dots stay in a relative path and go from a rooted one, and
  // nothing at all is a dot.
  lemma CleanAtTheFront(a: string, b: string)
    ensures Push([], "..", false) == [".."] && Push([".."], "..", false) == ["..", ".."] && Push([], "..", true) == []
    ensures Clean("") == "." && JoinPath("", "") == ""
    ensures a != "" ==> JoinPath(a, "") == Clean(a) && JoinPath("", a) == Clean(a)
    ensures a != "" && b != "" ==> JoinPath(a, b) == Clean(a + "/" + b)
  {
  }
}
