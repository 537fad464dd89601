/**
 The list of node names: the client joins it into one comma-separated string
 in a growing buffer, the server splits the string and drops its own names.
 */
module NodeList {

  ghost predicate NameOk(name: string) {
    name != "" && ',' !in name && '\0' !in name
  }

  ghost predicate NamesOk(names: seq<string>) {
    forall k :: 0 <= k < |names| ==> NameOk(names[k])
  }

  function Join(names: seq<string>): string {
    if names == [] then ""
    else if |names| == 1 then names[0]
    else names[0] + "," + Join(names[1..])
  }

  /** The first k of n names as the loop leaves them: a comma after each but the very last. */
  function Prefix(names: seq<string>, k: nat): string
    requires k <= |names|
  {
    if k == 0 then ""
    else Prefix(names, k - 1) + names[k - 1] + (if k < |names| then "," else "")
  }

  lemma {:induction false} PrefixTail(names: seq<string>, k: nat)
    requires 0 < k <= |names|
    ensures Prefix(names, k) == names[0] + (if 1 < |names| then "," else "") + Prefix(names[1..], k - 1)
    decreases k
  {
    if k > 1 {
      PrefixTail(names, k - 1);
      var last := names[k - 1] + (if k < |names| then "," else "");
      assert Prefix(names, k) == Prefix(names, k - 1) + last;
      assert Prefix(names[1..], k - 1) == Prefix(names[1..], k - 2) + last;
    } else {
      assert Prefix(names, 1) == Prefix(names, 0) + names[0] + (if 1 < |names| then "," else "");
    }
  }

  lemma {:induction false} PrefixIsJoin(names: seq<string>)
    ensures Prefix(names, |names|) == Join(names)
    decreases |names|
  {
    if |names| > 0 {
      PrefixTail(names, |names|);
      PrefixIsJoin(names[1..]);
    }
  }

  // ----- the client's buffer

  const CHUNK: nat := 1024

  /** The fewest whole chunks that hold so many characters. */
  function Chunks(needed: nat): nat { (needed + 1023) / 1024 * 1024 }

  lemma ChunksBound(needed: nat)
    ensures Chunks(needed) % 1024 == 0 && needed <= Chunks(needed) < needed + 1024
  {
  }

  lemma ChunksExact(size: nat, needed: nat)
    requires size % 1024 == 0 && needed <= size < needed + 1024
    ensures size == Chunks(needed)
  {
  }

  /** A zero-terminated string in an allocated buffer. */
  class StringBuffer {
    var data: array<char>
    var len: nat

    ghost predicate Valid()
      reads this, data
    {
      len < data.Length && data[len] == '\0'
    }

    ghost function Text(): string
      reads this, data
      requires Valid()
    {
      data[..len]
    }

    constructor ()
      ensures Valid() && fresh(data) && Text() == "" && data.Length == CHUNK
    {
      data := new char[CHUNK](_ => '\0');
      len := 0;
    }

    /** Reallocation: one more chunk, the text kept. */
    method Grow()
      requires Valid()
      modifies this`data
      ensures Valid() && fresh(data) && Text() == old(Text())
      ensures data.Length == old(data.Length) + CHUNK
    {
      var old_data, n := data, len;
      var bigger := new char[data.Length + CHUNK](i requires i >= 0 reads old_data =>
        if i < old_data.Length then old_data[i] else '\0');
      data := bigger;
      assert data[..len] == old_data[..len];
    }

    /** Grows until a string of n characters fits, with a comma and a terminator, and no further. */
    method Reserve(n: nat)
      requires Valid() && data.Length == Chunks(len + 1)
      modifies this`data
      ensures Valid() && (data == old(data) || fresh(data)) && Text() == old(Text())
      ensures data.Length == Chunks(len + n + 2)
    {
      ChunksBound(len + 1);
      while len + n + 2 > data.Length
        invariant Valid() && (data == old(data) || fresh(data)) && Text() == old(Text())
        invariant data.Length % 1024 == 0 && data.Length < len + n + 2 + 1024
        decreases len + n + 2 - data.Length
      {
        Grow();
      }
      ChunksExact(data.Length, len + n + 2);
    }

    /** Appending copies the characters and the terminator; the caller has made room for both. */
    method Append(s: string)
      requires Valid() && len + |s| < data.Length
      modifies this`len, data
      ensures Valid() && data == old(data) && Text() == old(Text()) + s
    {
      var start := len;
      for i := 0 to |s|
        invariant start + |s| < data.Length && data == old(data) && len == start
        invariant data[..start] == old(data[..start])
        invariant data[start..start + i] == s[..i]
      {
        data[start + i] := s[i];
        assert data[start..start + i + 1] == data[start..start + i] + [s[i]];
      }
      data[start + |s|] := '\0';
      len := start + |s|;
      assert data[..len] == data[..start] + data[start..len];
    }

    /** One name, and a comma unless it is the last. */
    method Add(name: string, last: bool)
      requires Valid() && data.Length == Chunks(len + 1)
      modifies this, data
      ensures Valid() && (data == old(data) || fresh(data))
      ensures Text() == old(Text()) + name + if last then "" else ","
      ensures data.Length == Chunks(len + if last then 2 else 1)
    {
      ghost var before := Text();
      ChunksBound(len + |name| + 2);
      Reserve(|name|);
      Append(name);
      if !last {
        Append(",");
      }
      assert last ==> before + name + "" == before + name;
    }
  }

  /**
   Joins the names; the growth loop ends, text and terminator always fit, and
   the buffer has as many kilobytes as the text with a comma and a terminator
   needs.
   */
  method JoinNames(names: seq<string>) returns (buf: StringBuffer)
    ensures fresh(buf) && buf.Valid() && buf.Text() == Join(names)
    ensures |buf.Text()| + 1 <= buf.data.Length == Chunks(|buf.Text()| + 2)
  {
    buf := new StringBuffer();
    for i := 0 to |names|
      invariant fresh(buf) && fresh(buf.data) && buf.Valid() && buf.Text() == Prefix(names, i)
      invariant buf.data.Length == Chunks(buf.len + if i < |names| then 1 else 2)
    {
      buf.Add(names[i], i == |names| - 1);
    }
    ChunksBound(buf.len + 2);
    PrefixIsJoin(names);
  }

  // ----- the server's tokens

  /** How far the text goes without a comma. */
  function Run(s: string): (n: nat)
    ensures n <= |s|
    ensures ',' !in s[..n]
    ensures n < |s| ==> s[n] == ','
  {
    if s == "" || s[0] == ',' then 0
    else
      var n := 1 + Run(s[1..]);
      assert s[..n] == [s[0]] + s[1..][..n - 1];
      n
  }

  /** The non-empty pieces between commas. */
  function Tokens(s: string): seq<string>
    decreases |s|
  {
    if s == "" then []
    else if s[0] == ',' then Tokens(s[1..])
    else
      assert Run(s) > 0;
      [s[..Run(s)]] + Tokens(s[Run(s)..])
  }

  function Kept(ts: seq<string>, locals: seq<string>): seq<string> {
    if ts == [] then []
    else (if ts[0] in locals then [] else [ts[0]]) + Kept(ts[1..], locals)
  }

  /** Whether a token is one of this machine's own addresses. */
  method IsLocal(token: string, locals: seq<string>) returns (found: bool)
    ensures found <==> token in locals
  {
    found := false;
    for i := 0 to |locals|
      invariant !found && token !in locals[..i]
    {
      if token == locals[i] {
        found := true;
        return;
      }
      assert locals[..i + 1] == locals[..i] + [locals[i]];
    }
    assert locals[..|locals|] == locals;
  }

  /** One strtok step: skips commas, then takes the text up to the next one. */
  method NextToken(s: string) returns (found: bool, token: string, rest: string)
    ensures !found ==> Tokens(s) == []
    ensures found ==> Tokens(s) == [token] + Tokens(rest) && |rest| < |s|
  {
    var at := 0;
    while at < |s| && s[at] == ','
      invariant 0 <= at <= |s| && Tokens(s) == Tokens(s[at..])
    {
      assert s[at..][1..] == s[at + 1..];
      at := at + 1;
    }
    found, token, rest := at < |s|, "", "";
    if found {
      var end := at;
      while end < |s| && s[end] != ','
        invariant at <= end <= |s| && Run(s[at..]) == end - at + Run(s[end..])
      {
        assert s[end..][1..] == s[end + 1..];
        end := end + 1;
      }
      token, rest := s[at..end], s[end..];
      assert Run(s[end..]) == 0;
      assert s[at..][..end - at] == token && s[at..][end - at..] == rest;
    }
  }

  /** Server initialisation: appends to the node list every token that is not local. */
  method InitNodes(nodeStr: string, locals: seq<string>, before: seq<string>) returns (nodes: seq<string>)
    ensures nodes == before + Kept(Tokens(nodeStr), locals)
  {
    nodes := before;
    var rest := nodeStr;
    while true
      invariant nodes + Kept(Tokens(rest), locals) == before + Kept(Tokens(nodeStr), locals)
      decreases |rest|
    {
      var found, token, rest' := NextToken(rest);
      if !found {
        assert nodes + [] == nodes;
        return;
      }
      var hasFound := IsLocal(token, locals);
      ghost var ts := Tokens(rest);
      assert ts[0] == token && ts[1..] == Tokens(rest');
      if !hasFound {
        assert nodes + ([token] + Kept(Tokens(rest'), locals)) == nodes + [token] + Kept(Tokens(rest'), locals);
        nodes := nodes + [token];
      } else {
        assert [] + Kept(Tokens(rest'), locals) == Kept(Tokens(rest'), locals);
      }
      rest := rest';
    }
  }

  // ----- round trip

  lemma {:induction false} RunOf(name: string, rest: string)
    requires ',' !in name && (rest == "" || rest[0] == ',')
    ensures Run(name + rest) == |name|
    decreases |name|
  {
    if name == "" {
      assert name + rest == rest;
    } else {
      assert (name + rest)[1..] == name[1..] + rest;
      RunOf(name[1..], rest);
    }
  }

  lemma TokensOf(name: string, rest: string)
    requires name != "" && ',' !in name && (rest == "" || rest[0] == ',')
    ensures Tokens(name + rest) == [name] + Tokens(rest)
  {
    RunOf(name, rest);
    assert (name + rest)[..|name|] == name && (name + rest)[|name|..] == rest;
  }

  /** Splitting what was joined gives the names back, in order, for every list of non-empty comma-free names. */
  lemma {:induction false} SplitJoin(names: seq<string>)
    requires NamesOk(names)
    ensures Tokens(Join(names)) == names
    decreases |names|
  {
    if |names| == 1 {
      TokensOf(names[0], "");
      assert names[0] + "" == names[0] && names == [names[0]];
    } else if |names| > 1 {
      var rest := "," + Join(names[1..]);
      assert Join(names) == names[0] + rest;
      TokensOf(names[0], rest);
      assert rest[1..] == Join(names[1..]);
      SplitJoin(names[1..]);
      assert [names[0]] + names[1..] == names;
    }
  }

  // ----- the text the client sends is the shortest that splits into the names

  ghost function TotalLength(names: seq<string>): nat {
    if names == [] then 0 else |names[0]| + TotalLength(names[1..])
  }

  /** The characters of the names and one comma between each two. */
  ghost function SentLength(names: seq<string>): nat {
    TotalLength(names) + if names == [] then 0 else |names| - 1
  }

  lemma {:induction false} JoinLength(names: seq<string>)
    ensures |Join(names)| == SentLength(names)
    decreases |names|
  {
    if |names| == 1 {
      assert names[1..] == [];
    } else if |names| > 1 {
      JoinLength(names[1..]);
    }
  }

  /** No shorter text has these tokens, and no other of this length. */
  lemma {:induction false} ShortestText(s: string)
    ensures SentLength(Tokens(s)) <= |s|
    ensures |s| == SentLength(Tokens(s)) ==> s == Join(Tokens(s))
    decreases |s|
  {
    if s != "" {
      if s[0] == ',' {
        ShortestText(s[1..]);
      } else {
        var name, rest := s[..Run(s)], s[Run(s)..];
        var ts := Tokens(rest);
        assert Tokens(s) == [name] + ts && ([name] + ts)[1..] == ts && s == name + rest;
        assert TotalLength([name] + ts) == |name| + TotalLength(ts);
        if rest != "" {
          ShortestText(rest[1..]);
          assert rest == "," + rest[1..] && ts == Tokens(rest[1..]);
        }
      }
    }
  }

  /** What the client sends is the only text of its length or less that the server splits into the names. */
  lemma JoinIsShortest(names: seq<string>, s: string)
    requires NamesOk(names) && Tokens(s) == names
    ensures |Join(names)| <= |s|
    ensures |s| == |Join(names)| ==> s == Join(names)
  {
    JoinLength(names);
    ShortestText(s);
  }

  // ----- what the tokens of any text are

  /** A text without commas is one token, or none if it is empty. */
  lemma TokensWord(w: string)
    requires ',' !in w
    ensures Tokens(w) == if w == "" then [] else [w]
  {
    if w != "" {
      TokensOf(w, "");
      assert w + "" == w;
    }
  }

  lemma {:induction false} RunBefore(s: string, t: string)
    ensures Run(s + "," + t) == Run(s)
    decreases |s|
  {
    if s != "" && s[0] != ',' {
      assert (s + "," + t)[1..] == s[1..] + "," + t;
      RunBefore(s[1..], t);
    }
  }

  /** A comma anywhere separates: the tokens before it and the tokens after it are the tokens, for every text. */
  lemma {:induction false} TokensAcross(s: string, t: string)
    ensures Tokens(s + "," + t) == Tokens(s) + Tokens(t)
    decreases |s|
  {
    var whole := s + "," + t;
    if s == "" {
      assert whole[1..] == t;
    } else if s[0] == ',' {
      assert whole[1..] == s[1..] + "," + t;
      TokensAcross(s[1..], t);
    } else {
      var n := Run(s);
      RunBefore(s, t);
      assert whole[..n] == s[..n] && whole[n..] == s[n..] + "," + t;
      TokensAcross(s[n..], t);
    }
  }

  // ----- membership

  ghost predicate Distinct(names: seq<string>) {
    forall i, j :: 0 <= i < j < |names| ==> names[i] != names[j]
  }

  lemma {:induction false} KeptHas(ts: seq<string>, locals: seq<string>, x: string)
    ensures x in Kept(ts, locals) <==> x in ts && x !in locals
    decreases |ts|
  {
    if ts != [] {
      KeptHas(ts[1..], locals, x);
      assert x in ts <==> x == ts[0] || x in ts[1..];
    }
  }

  ghost function Shifted(at: seq<nat>, n: nat): (r: seq<nat>)
    ensures |r| == |at| && forall k :: 0 <= k < |at| ==> r[k] == at[k] + n
  {
    seq(|at|, k requires 0 <= k < |at| => at[k] + n)
  }

  /** Kept name k is the name given at place i, and not local. */
  ghost predicate KeptFrom(ts: seq<string>, locals: seq<string>, ks: seq<string>, k: nat, i: nat) {
    i < |ts| && k < |ks| && ks[k] == ts[i] && ts[i] !in locals
  }

  ghost predicate Increasing(at: seq<nat>) {
    forall k, l :: 0 <= k < l < |at| ==> at[k] < at[l]
  }

  /** The kept names stand in the order they were given: at increasing places, and at every place whose name is not local. */
  ghost predicate KeptAt(ts: seq<string>, locals: seq<string>, ks: seq<string>, at: seq<nat>) {
    && |at| == |ks|
    && (forall k :: 0 <= k < |at| ==> KeptFrom(ts, locals, ks, k, at[k]))
    && Increasing(at)
    && (forall i :: 0 <= i < |ts| && ts[i] !in locals ==> i in at)
  }

  lemma KeptShifted(ts: seq<string>, locals: seq<string>, ks: seq<string>, at: seq<nat>, i: nat)
    requires ts != [] && KeptAt(ts[1..], locals, ks, at) && 0 < i < |ts| && ts[i] !in locals
    ensures i in Shifted(at, 1)
  {
    assert ts[1..][i - 1] !in locals;
    var k :| 0 <= k < |at| && at[k] == i - 1;
    assert Shifted(at, 1)[k] == i;
  }

  lemma KeptLocalFirst(ts: seq<string>, locals: seq<string>, ks: seq<string>, at: seq<nat>)
    requires ts != [] && ts[0] in locals && KeptAt(ts[1..], locals, ks, at)
    ensures KeptAt(ts, locals, ks, Shifted(at, 1))
  {
    var r := Shifted(at, 1);
    forall k | 0 <= k < |r| ensures KeptFrom(ts, locals, ks, k, r[k]) {
      assert KeptFrom(ts[1..], locals, ks, k, at[k]);
    }
    forall i | 0 <= i < |ts| && ts[i] !in locals ensures i in r {
      KeptShifted(ts, locals, ks, at, i);
    }
  }

  lemma IncreasingCons(at: seq<nat>)
    requires Increasing(at)
    ensures Increasing([0] + Shifted(at, 1))
  {
  }

  lemma KeptOtherFirst(ts: seq<string>, locals: seq<string>, ks: seq<string>, at: seq<nat>)
    requires ts != [] && ts[0] !in locals && KeptAt(ts[1..], locals, ks, at)
    ensures KeptAt(ts, locals, [ts[0]] + ks, [0] + Shifted(at, 1))
  {
    var r := [0] + Shifted(at, 1);
    forall k | 0 <= k < |r| ensures KeptFrom(ts, locals, [ts[0]] + ks, k, r[k]) {
      if k > 0 {
        assert KeptFrom(ts[1..], locals, ks, k - 1, at[k - 1]);
      }
    }
    IncreasingCons(at);
    forall i | 0 <= i < |ts| && ts[i] !in locals ensures i in r {
      if i > 0 {
        KeptShifted(ts, locals, ks, at, i);
      }
    }
  }

  /** The filter keeps the order of the names. */
  lemma {:induction false} KeptOrder(ts: seq<string>, locals: seq<string>) returns (at: seq<nat>)
    ensures KeptAt(ts, locals, Kept(ts, locals), at)
    decreases |ts|
  {
    if ts == [] {
      at := [];
    } else {
      var rest := KeptOrder(ts[1..], locals);
      var ks := Kept(ts[1..], locals);
      if ts[0] in locals {
        KeptLocalFirst(ts, locals, ks, rest);
        assert [] + ks == ks;
        at := Shifted(rest, 1);
      } else {
        KeptOtherFirst(ts, locals, ks, rest);
        at := [0] + Shifted(rest, 1);
      }
    }
  }

  lemma {:induction false} KeptAll(ts: seq<string>, locals: seq<string>)
    requires forall k :: 0 <= k < |ts| ==> ts[k] !in locals
    ensures Kept(ts, locals) == ts
    decreases |ts|
  {
    if ts != [] {
      KeptAll(ts[1..], locals);
    }
  }

  /** Where one name only is local, the others are kept, in order. */
  lemma {:induction false} KeptOthers(ts: seq<string>, locals: seq<string>, i: nat)
    requires i < |ts| && forall k :: 0 <= k < |ts| ==> (ts[k] in locals <==> k == i)
    ensures Kept(ts, locals) == ts[..i] + ts[i + 1..]
    decreases |ts|
  {
    if i == 0 {
      KeptAll(ts[1..], locals);
    } else {
      KeptOthers(ts[1..], locals, i - 1);
      assert ts[1..][i..] == ts[i + 1..];
      assert ts[..i] == [ts[0]] + ts[1..][..i - 1];
    }
  }

  lemma {:induction false} KeptDistinct(ts: seq<string>, locals: seq<string>)
    requires Distinct(ts)
    ensures Distinct(Kept(ts, locals))
    decreases |ts|
  {
    if ts != [] {
      KeptDistinct(ts[1..], locals);
      KeptHas(ts[1..], locals, ts[0]);
      var k := Kept(ts[1..], locals);
      if ts[0] !in locals {
        forall i, j | 0 <= i < j < |[ts[0]] + k| ensures ([ts[0]] + k)[i] != ([ts[0]] + k)[j] {
          assert i == 0 ==> k[j - 1] in k;
        }
      } else {
        assert [] + k == k;
      }
    }
  }
}
