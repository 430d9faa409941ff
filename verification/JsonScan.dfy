/**
 * The scan that every JSON response passes before it is decoded
 * (clients/seerr/client.go), over the decoder's token stream. Commas and
 * colons are not tokens.
 */
module JsonScan {
  import opened Common

  const MAX_DEPTH := 64

  // Atom stands for null, booleans and numbers.
  datatype Token = OpenObject | CloseObject | OpenArray | CloseArray | Text(text: string) | Atom(atom: string)

  predicate Closer(t: Token) { t.CloseObject? || t.CloseArray? }

  datatype Value = Str(text: string) | Atomic(atom: string) | Arr(items: Items) | Obj(members: Members)

  datatype Items = NoItems | Item(value: Value, rest: Items)

  datatype Members = NoMembers | Member(name: string, value: Value, rest: Members)

  // The tokens of one value.
  function Flatten(v: Value): seq<Token> {
    match v
    case Str(s) => [Text(s)]
    case Atomic(a) => [Atom(a)]
    case Arr(items) => [OpenArray] + FlattenItems(items) + [CloseArray]
    case Obj(members) => [OpenObject] + FlattenMembers(members) + [CloseObject]
  }

  function FlattenItems(items: Items): seq<Token> {
    match items case NoItems => [] case Item(v, rest) => Flatten(v) + FlattenItems(rest)
  }

  function FlattenMembers(members: Members): seq<Token> {
    match members case NoMembers => [] case Member(n, v, rest) => [Text(n)] + Flatten(v) + FlattenMembers(rest)
  }

  function Names(members: Members): seq<string> {
    match members case NoMembers => [] case Member(n, _, rest) => [n] + Names(rest)
  }

  predicate Distinct(names: seq<string>) { forall i, j :: 0 <= i < j < |names| ==> names[i] != names[j] }

  // Within the nesting bound, and every object's member names distinct.
  predicate Good(v: Value, depth: nat) {
    depth <= MAX_DEPTH && match v
      case Str(_) => true
      case Atomic(_) => true
      case Arr(items) => GoodItems(items, depth + 1)
      case Obj(members) => Distinct(Names(members)) && GoodMembers(members, depth + 1)
  }

  predicate GoodItems(items: Items, depth: nat) {
    match items case NoItems => true case Item(v, rest) => Good(v, depth) && GoodItems(rest, depth)
  }

  predicate GoodMembers(members: Members, depth: nat) {
    match members case NoMembers => true case Member(_, v, rest) => Good(v, depth) && GoodMembers(rest, depth)
  }

  // ------------------------------------------------------------ the scan as values

  // decoder.More
  predicate HasMore(ts: seq<Token>) { ts != [] && !Closer(ts[0]) }

  // What one scan leaves unread, None when it fails.
  function Scan(ts: seq<Token>, depth: nat): (r: Option<seq<Token>>)
    ensures r.Some? ==> |r.value| < |ts|
    decreases |ts|, 0
  {
    if depth > MAX_DEPTH || ts == [] then None
    else match ts[0]
      case Text(_) => Some(ts[1..])
      case Atom(_) => Some(ts[1..])
      case OpenObject => Close(ScanMembers(ts[1..], depth + 1, {}), CloseObject)
      case OpenArray => Close(ScanItems(ts[1..], depth + 1), CloseArray)
      case _ => None
  }

  function ScanItems(ts: seq<Token>, depth: nat): (r: Option<seq<Token>>)
    ensures r.Some? ==> |r.value| <= |ts|
    decreases |ts|, 1
  {
    if !HasMore(ts) then Some(ts)
    else match Scan(ts, depth) case None => None case Some(rest) => ScanItems(rest, depth)
  }

  function ScanMembers(ts: seq<Token>, depth: nat, seen: set<string>): (r: Option<seq<Token>>)
    ensures r.Some? ==> |r.value| <= |ts|
    decreases |ts|, 1
  {
    if !HasMore(ts) then Some(ts)
    else if !ts[0].Text? || ts[0].text in seen then None
    else match Scan(ts[1..], depth) case None => None case Some(rest) => ScanMembers(rest, depth, seen + {ts[0].text})
  }

  // The closing token after a container's content.
  function Close(content: Option<seq<Token>>, end: Token): (r: Option<seq<Token>>)
    ensures r.Some? ==> content.Some? && |r.value| < |content.value|
  {
    if content.Some? && content.value != [] && content.value[0] == end then Some(content.value[1..]) else None
  }

  // ------------------------------------------------------------ the decoder

  class Decoder {
    const tokens: seq<Token>
    var pos: nat

    constructor (tokens: seq<Token>)
      ensures this.tokens == tokens && pos == 0
    {
      this.tokens, pos := tokens, 0;
    }

    function Rest(): seq<Token>
      reads this
      requires pos <= |tokens|
    {
      tokens[pos..]
    }

    method More() returns (r: bool)
      requires pos <= |tokens|
      ensures r == HasMore(Rest())
    {
      r := pos < |tokens| && !Closer(tokens[pos]);
    }

    method Next() returns (r: Option<Token>)
      requires pos <= |tokens|
      modifies this
      ensures pos <= |tokens|
      ensures old(Rest()) == [] ==> r.None? && Rest() == []
      ensures old(Rest()) != [] ==> r == Some(old(Rest())[0]) && Rest() == old(Rest())[1..]
    {
      if pos == |tokens| {
        return None;
      }
      r := Some(tokens[pos]);
      pos := pos + 1;
    }

    // scanJSONValue
    method ScanValue(depth: nat) returns (ok: bool)
      requires pos <= |tokens|
      modifies this
      ensures old(pos) <= pos <= |tokens|
      ensures ok <==> Scan(old(Rest()), depth).Some?
      ensures ok ==> old(pos) < pos && Rest() == Scan(old(Rest()), depth).value
      decreases |tokens| - pos, 0
    {
      if depth > MAX_DEPTH {
        return false;
      }
      var token := Next();
      if token.None? {
        return false;
      }
      match token.value {
        case Text(_) => return true;
        case Atom(_) => return true;
        case OpenObject =>
          ok := ScanObject(depth);
        case OpenArray =>
          ok := ScanArray(depth);
        case _ => return false;
      }
    }

    method ScanObject(depth: nat) returns (ok: bool)
      requires pos <= |tokens|
      modifies this
      ensures old(pos) <= pos <= |tokens|
      ensures var r := Close(ScanMembers(old(Rest()), depth + 1, {}), CloseObject);
        (ok <==> r.Some?) && (ok ==> old(pos) < pos && Rest() == r.value)
      decreases |tokens| - pos, 1
    {
      ghost var all := ScanMembers(Rest(), depth + 1, {});
      var seen: set<string> := {};
      var more := More();
      while more
        invariant old(pos) <= pos <= |tokens|
        invariant more == HasMore(Rest())
        invariant all == ScanMembers(Rest(), depth + 1, seen)
        decreases |tokens| - pos
      {
        var key := Next();
        if key.None? || !key.value.Text? || key.value.text in seen {
          return false;
        }
        seen := seen + {key.value.text};
        ok := ScanValue(depth + 1);
        if !ok {
          return false;
        }
        more := More();
      }
      var end := Next();
      ok := end == Some(CloseObject);
    }

    method ScanArray(depth: nat) returns (ok: bool)
      requires pos <= |tokens|
      modifies this
      ensures old(pos) <= pos <= |tokens|
      ensures var r := Close(ScanItems(old(Rest()), depth + 1), CloseArray);
        (ok <==> r.Some?) && (ok ==> old(pos) < pos && Rest() == r.value)
      decreases |tokens| - pos, 1
    {
      ghost var all := ScanItems(Rest(), depth + 1);
      var more := More();
      while more
        invariant old(pos) <= pos <= |tokens|
        invariant more == HasMore(Rest())
        invariant all == ScanItems(Rest(), depth + 1)
        decreases |tokens| - pos
      {
        ok := ScanValue(depth + 1);
        if !ok {
          return false;
        }
        more := More();
      }
      var end := Next();
      ok := end == Some(CloseArray);
    }
  }

  // scanJSON after the UTF-8 check: one value and nothing after it.
  method ScanJSON(tokens: seq<Token>) returns (ok: bool)
    ensures ok <==> exists v :: Good(v, 0) && tokens == Flatten(v)
  {
    var d := new Decoder(tokens);
    assert d.Rest() == tokens;
    ok := d.ScanValue(0);
    if ok {
      var trailing := d.Next();
      ok := trailing.None?;
    }
    assert ok <==> Scan(tokens, 0) == Some([]);
    ScanExactly(tokens, 0, []);
    forall v ensures Flatten(v) + [] == Flatten(v) {
    }
  }

  // ------------------------------------------------------------ exactness

  // The scan accepts exactly one value and leaves exactly what follows it.
  lemma ScanExactly(ts: seq<Token>, depth: nat, rest: seq<Token>)
    ensures Scan(ts, depth) == Some(rest) <==> exists v :: Good(v, depth) && ts == Flatten(v) + rest
  {
    if Scan(ts, depth) == Some(rest) {
      var v := Sound(ts, depth);
    }
    if exists v :: Good(v, depth) && ts == Flatten(v) + rest {
      var v :| Good(v, depth) && ts == Flatten(v) + rest;
      Complete(v, depth, rest);
    }
  }

  // No token sequence starts with two different values.
  lemma {:induction false} FlattenUnambiguous(v: Value, w: Value, s: seq<Token>, t: seq<Token>)
    requires Flatten(v) + s == Flatten(w) + t
    ensures v == w && s == t
    decreases v, 3
  {
    var all := Flatten(v) + s;
    FlattenStarts(v);
    FlattenStarts(w);
    assert all[0] == Flatten(v)[0] && all[0] == Flatten(w)[0];
    match v
    case Str(_) => assert all[1..] == s == t;
    case Atomic(_) => assert all[1..] == s == t;
    case Arr(vi) => ArraysUnambiguous(vi, w, s, t);
    case Obj(vm) => ObjectsUnambiguous(vm, w, s, t);
  }

  lemma {:induction false} ArraysUnambiguous(vi: Items, w: Value, s: seq<Token>, t: seq<Token>)
    requires Flatten(Arr(vi)) + s == Flatten(w) + t && w.Arr?
    ensures Arr(vi) == w && s == t
    decreases Arr(vi), 2
  {
    hide FlattenItems;
    ArrayTokens(vi, s);
    ArrayTokens(w.items, t);
    ItemsUnambiguous(vi, w.items, [CloseArray] + s, [CloseArray] + t);
    assert s == ([CloseArray] + s)[1..];
  }

  lemma {:induction false} ObjectsUnambiguous(vm: Members, w: Value, s: seq<Token>, t: seq<Token>)
    requires Flatten(Obj(vm)) + s == Flatten(w) + t && w.Obj?
    ensures Obj(vm) == w && s == t
    decreases Obj(vm), 2
  {
    hide FlattenMembers;
    ObjectTokens(vm, s);
    ObjectTokens(w.members, t);
    MembersUnambiguous(vm, w.members, [CloseObject] + s, [CloseObject] + t);
    assert s == ([CloseObject] + s)[1..];
  }

  lemma ArrayTokens(items: Items, s: seq<Token>)
    ensures var all := Flatten(Arr(items)) + s;
      && all[0] == OpenArray && all[1..] == FlattenItems(items) + ([CloseArray] + s)
      && all == [OpenArray] + (FlattenItems(items) + ([CloseArray] + s))
  {
  }

  lemma ObjectTokens(members: Members, s: seq<Token>)
    ensures var all := Flatten(Obj(members)) + s;
      && all[0] == OpenObject && all[1..] == FlattenMembers(members) + ([CloseObject] + s)
      && all == [OpenObject] + (FlattenMembers(members) + ([CloseObject] + s))
  {
  }

  lemma FlattenStarts(v: Value)
    ensures Flatten(v) != [] && !Closer(Flatten(v)[0])
  {
  }

  lemma {:induction false} ItemsUnambiguous(v: Items, w: Items, s: seq<Token>, t: seq<Token>)
    requires FlattenItems(v) + s == FlattenItems(w) + t
    requires s != [] && t != [] && Closer(s[0]) && Closer(t[0])
    ensures v == w && s == t
    decreases v, 1
  {
    hide Flatten;
    var all := FlattenItems(v) + s;
    assert [] + s == s && [] + t == t;
    if v.Item? { FlattenStarts(v.value); }
    if w.Item? { FlattenStarts(w.value); }
    assert v.NoItems? ==> all[0] == s[0];
    assert w.NoItems? ==> all[0] == t[0];
    if v.Item? && w.Item? {
      assert all == Flatten(v.value) + (FlattenItems(v.rest) + s);
      assert all == Flatten(w.value) + (FlattenItems(w.rest) + t);
      FlattenUnambiguous(v.value, w.value, FlattenItems(v.rest) + s, FlattenItems(w.rest) + t);
      ItemsUnambiguous(v.rest, w.rest, s, t);
    }
  }

  lemma {:induction false} MembersUnambiguous(v: Members, w: Members, s: seq<Token>, t: seq<Token>)
    requires FlattenMembers(v) + s == FlattenMembers(w) + t
    requires s != [] && t != [] && Closer(s[0]) && Closer(t[0])
    ensures v == w && s == t
    decreases v, 1
  {
    var all := FlattenMembers(v) + s;
    assert [] + s == s && [] + t == t;
    assert v.NoMembers? ==> all[0] == s[0];
    assert w.NoMembers? ==> all[0] == t[0];
    if v.Member? && w.Member? {
      MembersHead(v, s);
      MembersHead(w, t);
      FlattenUnambiguous(v.value, w.value, FlattenMembers(v.rest) + s, FlattenMembers(w.rest) + t);
      MembersUnambiguous(v.rest, w.rest, s, t);
    }
  }

  lemma MembersHead(v: Members, s: seq<Token>)
    requires v.Member?
    ensures var all := FlattenMembers(v) + s;
      |all| > 0 && all[0] == Text(v.name) && all[1..] == Flatten(v.value) + (FlattenMembers(v.rest) + s)
  {
    hide Flatten;
    Regroup(Text(v.name), Flatten(v.value), FlattenMembers(v.rest), s);
  }

  lemma Regroup(n: Token, f: seq<Token>, r: seq<Token>, s: seq<Token>)
    ensures [n] + f + r + s == [n] + (f + (r + s)) && ([n] + (f + (r + s)))[1..] == f + (r + s)
  {
  }

  // Completeness: on the tokens of a value the scan succeeds exactly when the
  // value is good, and then leaves what follows.
  lemma {:induction false} Complete(v: Value, depth: nat, tail: seq<Token>)
    ensures Scan(Flatten(v) + tail, depth) == if Good(v, depth) then Some(tail) else None
    decreases v, 0
  {
    var ts := Flatten(v) + tail;
    match v
    case Str(_) => assert ts[1..] == tail;
    case Atomic(_) => assert ts[1..] == tail;
    case Arr(items) =>
      var end := [CloseArray] + tail;
      assert ts[1..] == FlattenItems(items) + end;
      CompleteItems(items, depth + 1, end);
      assert end[1..] == tail;
    case Obj(members) =>
      var end := [CloseObject] + tail;
      assert ts[1..] == FlattenMembers(members) + end;
      CompleteMembers(members, depth + 1, {}, end);
      assert end[1..] == tail;
  }

  lemma {:induction false} CompleteItems(items: Items, depth: nat, tail: seq<Token>)
    requires tail != [] && Closer(tail[0])
    ensures ScanItems(FlattenItems(items) + tail, depth) == if GoodItems(items, depth) then Some(tail) else None
    decreases items, 1
  {
    var ts := FlattenItems(items) + tail;
    assert [] + tail == tail;
    if items.Item? {
      FlattenStarts(items.value);
      var more := FlattenItems(items.rest) + tail;
      assert ts == Flatten(items.value) + more;
      assert ts[0] == Flatten(items.value)[0];
      Complete(items.value, depth, more);
      CompleteItems(items.rest, depth, tail);
    }
  }

  predicate Fresh(names: seq<string>, seen: set<string>) {
    Distinct(names) && forall i :: 0 <= i < |names| ==> names[i] !in seen
  }

  lemma {:induction false} CompleteMembers(members: Members, depth: nat, seen: set<string>, tail: seq<Token>)
    requires tail != [] && Closer(tail[0])
    ensures ScanMembers(FlattenMembers(members) + tail, depth, seen) ==
            if GoodMembers(members, depth) && Fresh(Names(members), seen) then Some(tail) else None
    decreases members, 1
  {
    hide Fresh;
    var ts := FlattenMembers(members) + tail;
    assert [] + tail == tail;
    FreshEmpty(seen);
    if members.Member? {
      var more := FlattenMembers(members.rest) + tail;
      MembersHead(members, tail);
      FreshStep(members.name, Names(members.rest), seen);
      if members.name !in seen {
        Complete(members.value, depth, more);
        CompleteMembers(members.rest, depth, seen + {members.name}, tail);
      }
    }
  }

  lemma FreshEmpty(seen: set<string>)
    ensures Fresh([], seen)
  {
  }

  lemma FreshStep(name: string, names: seq<string>, seen: set<string>)
    ensures Fresh([name] + names, seen) <==> name !in seen && Fresh(names, seen + {name})
  {
    var all := [name] + names;
    assert forall i :: 0 <= i < |names| ==> all[i + 1] == names[i];
    if Fresh(all, seen) {
      assert all[0] == name;
      forall i, j | 0 <= i < j < |names| ensures names[i] != names[j] {
        assert all[i + 1] != all[j + 1];
      }
    }
  }

  // An empty array inside n others.
  function Arrays(n: nat): Value { if n == 0 then Arr(NoItems) else Arr(Item(Arrays(n - 1), NoItems)) }

  // The nesting bound: a value may lie inside 64 containers and no more.
  lemma {:induction false} DeepArrays(n: nat, depth: nat)
    ensures Good(Arrays(n), depth) <==> n + depth <= 64
    decreases n
  {
    if n > 0 {
      DeepArrays(n - 1, depth + 1);
      assert GoodItems(Item(Arrays(n - 1), NoItems), depth + 1) <==> Good(Arrays(n - 1), depth + 1);
    }
  }

  lemma ArraysAreScanned(n: nat, rest: seq<Token>)
    ensures Scan(Flatten(Arrays(n)) + rest, 0) == if n <= 64 then Some(rest) else None
  {
    DeepArrays(n, 0);
    Complete(Arrays(n), 0, rest);
  }

  // Soundness: what an accepted scan read is a good value.
  lemma {:induction false} Sound(ts: seq<Token>, depth: nat) returns (v: Value)
    requires Scan(ts, depth).Some?
    ensures Good(v, depth) && ts == Flatten(v) + Scan(ts, depth).value
    decreases |ts|, 0
  {
    hide ScanItems, ScanMembers, FlattenItems, FlattenMembers;
    match ts[0]
    case Text(s) => v := Str(s);
    case Atom(a) => v := Atomic(a);
    case OpenArray =>
      var items := SoundItems(ts[1..], depth + 1);
      v := Arr(items);
      SoundClose(ts, ScanItems(ts[1..], depth + 1), CloseArray);
      ArrayTokens(items, Scan(ts, depth).value);
    case OpenObject =>
      var members := SoundMembers(ts[1..], depth + 1, {});
      v := Obj(members);
      SoundClose(ts, ScanMembers(ts[1..], depth + 1, {}), CloseObject);
      ObjectTokens(members, Scan(ts, depth).value);
  }

  lemma SoundClose(ts: seq<Token>, content: Option<seq<Token>>, end: Token)
    requires ts != [] && Close(content, end).Some?
    ensures ts == [ts[0]] + ts[1..] && content.value == [end] + Close(content, end).value
  {
  }

  lemma {:induction false} SoundItems(ts: seq<Token>, depth: nat) returns (items: Items)
    requires ScanItems(ts, depth).Some?
    ensures GoodItems(items, depth) && ts == FlattenItems(items) + ScanItems(ts, depth).value
    decreases |ts|, 1
  {
    if !HasMore(ts) {
      assert [] + ts == ts;
      return NoItems;
    }
    hide Scan, Flatten, FlattenItems;
    var v := Sound(ts, depth);
    var left := Scan(ts, depth).value;
    var rest := SoundItems(left, depth);
    items := Item(v, rest);
    ItemsHead(items, ScanItems(left, depth).value);
    GoodHead(items, depth);
  }

  lemma ItemsHead(v: Items, s: seq<Token>)
    requires v.Item?
    ensures FlattenItems(v) + s == Flatten(v.value) + (FlattenItems(v.rest) + s)
  {
    hide Flatten;
    Assoc(Flatten(v.value), FlattenItems(v.rest), s);
  }

  lemma Assoc(f: seq<Token>, r: seq<Token>, s: seq<Token>)
    ensures f + r + s == f + (r + s)
  {
  }

  lemma GoodHead(items: Items, depth: nat)
    requires items.Item?
    ensures GoodItems(items, depth) <==> Good(items.value, depth) && GoodItems(items.rest, depth)
  {
  }

  lemma {:induction false} SoundMembers(ts: seq<Token>, depth: nat, seen: set<string>) returns (members: Members)
    requires ScanMembers(ts, depth, seen).Some?
    ensures GoodMembers(members, depth) && Fresh(Names(members), seen)
    ensures ts == FlattenMembers(members) + ScanMembers(ts, depth, seen).value
    decreases |ts|, 1
  {
    if !HasMore(ts) {
      return NoMembers;
    }
    hide Fresh, Scan;
    var name, after := ts[0].text, ts[1..];
    var v := Sound(after, depth);
    var left := Scan(after, depth).value;
    var rest := SoundMembers(left, depth, seen + {name});
    members := Member(name, v, rest);
    FreshStep(name, Names(rest), seen);
    MembersHead(members, ScanMembers(left, depth, seen + {name}).value);
  }
}
