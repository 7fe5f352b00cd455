// abspath of src/fs/namei.c: the current directory's text is edited in place, with a
// moving pointer, to the text of another directory.
module Paths {
  import opened Volume
  import opened Wrappers

  const EOS: char := '\0'

  // ---------------------------------------------------------- what it means

  // The parts of a path between its separators; the last one only when there is one.
  function Components(path: string): (cs: seq<string>) {
    var c := Component(path);
    ComponentPrefix(path);
    if path == "" then [] else if |c| == |path| then [c] else [c] + Components(path[|c| + 1..])
  }

  // Going to component c from the directory whose components are in stack.
  function Go(stack: seq<string>, c: string): seq<string> {
    if c == "." then stack
    else if c == ".." then (if stack == [] then [] else stack[..|stack| - 1])
    else stack + [c]
  }

  function GoAll(stack: seq<string>, cs: seq<string>): seq<string>
    decreases |cs|
  {
    if cs == [] then stack else GoAll(Go(stack, cs[0]), cs[1..])
  }

  predicate Absolute(path: string) {
    path != "" && IsSeparator(path[0])
  }

  function Resolve(stack: seq<string>, path: string): seq<string> {
    if Absolute(path) then GoAll([], Components(path[1..])) else GoAll(stack, Components(path))
  }

  // How a current directory is stored: a separator first, and one behind each component.
  function Text(stack: seq<string>): (t: string)
    ensures |t| > 0 && t[0] == '/' && t[|t| - 1] == '/'
  {
    if stack == [] then "/" else Text(stack[..|stack| - 1]) + stack[|stack| - 1] + "/"
  }

  predicate NoEos(s: string) {
    forall i :: 0 <= i < |s| ==> s[i] != EOS
  }

  predicate Clean(stack: seq<string>) {
    forall i :: 0 <= i < |stack| ==> Plain(stack[i]) && NoEos(stack[i])
  }

  // -------------------------------------------------------- laws of resolving

  lemma {:induction false} GoAllAppend(stack: seq<string>, a: seq<string>, b: seq<string>)
    ensures GoAll(stack, a + b) == GoAll(GoAll(stack, a), b)
    decreases |a|
  {
    if a == [] {
      assert a + b == b;
    } else {
      assert (a + b)[1..] == a[1..] + b;
      GoAllAppend(Go(stack, a[0]), a[1..], b);
    }
  }

  lemma {:induction false} ComponentsJoin(p: string, sep: char, q: string)
    requires IsSeparator(sep) && p != "" && !IsSeparator(p[|p| - 1])
    ensures Components(p + [sep] + q) == Components(p) + Components(q)
    decreases |p|
  {
    hide Component;
    var r := p + [sep] + q;
    var c := Component(p);
    ComponentPrefix(p);
    assert Plain(r[..|c|]) by { assert r[..|c|] == c; }
    if |c| == |p| {
      FirstIsComponent(r, |p|);
      assert c == p && r[..|p|] == p && r[|p| + 1..] == q;
    } else {
      FirstIsComponent(r, |c|);
      var rest := p[|c| + 1..];
      assert rest[|rest| - 1] == p[|p| - 1];
      ComponentsJoin(rest, sep, q);
      assert r[..|c|] == c && r[|c| + 1..] == rest + [sep] + q;
      assert Components(r) == [c] + Components(rest + [sep] + q);
      assert Components(p) == [c] + Components(rest);
    }
  }

  // Resolving p/q is resolving p, then q from the result.
  lemma ResolveInTwo(stack: seq<string>, p: string, sep: char, q: string)
    requires IsSeparator(sep) && p != "" && !IsSeparator(p[|p| - 1]) && !Absolute(q)
    ensures Resolve(stack, p + [sep] + q) == Resolve(Resolve(stack, p), q)
  {
    var r := p + [sep] + q;
    if Absolute(p) {
      var rest := p[1..];
      assert r[1..] == rest + [sep] + q;
      ComponentsJoin(rest, sep, q);
      GoAllAppend([], Components(rest), Components(q));
    } else {
      ComponentsJoin(p, sep, q);
      GoAllAppend(stack, Components(p), Components(q));
    }
  }

  // No component is "." or "..", and none is empty unless empty ones are allowed.
  predicate Normal(stack: seq<string>, empties: bool) {
    forall i :: 0 <= i < |stack| ==> stack[i] != "." && stack[i] != ".." && (empties || stack[i] != "")
  }

  lemma {:induction false} GoAllNormal(stack: seq<string>, cs: seq<string>, empties: bool)
    requires Normal(stack, empties) && (empties || forall i :: 0 <= i < |cs| ==> cs[i] != "")
    ensures Normal(GoAll(stack, cs), empties)
    decreases |cs|
  {
    if cs != [] {
      GoAllNormal(Go(stack, cs[0]), cs[1..], empties);
    }
  }

  // The whole path, as the components abspath meets.
  function Parts(path: string): seq<string> {
    if Absolute(path) then Components(path[1..]) else Components(path)
  }

  // Neither "." nor ".." is ever stored.
  lemma ResolveNormal(stack: seq<string>, path: string)
    ensures Normal(stack, true) ==> Normal(Resolve(stack, path), true)
    ensures Normal(stack, false) && "" !in Parts(path) ==> Normal(Resolve(stack, path), false)
  {
    var from := if Absolute(path) then [] else stack;
    if Normal(from, true) {
      GoAllNormal(from, Parts(path), true);
    }
    if Normal(from, false) && "" !in Parts(path) {
      GoAllNormal(from, Parts(path), false);
    }
  }

  // How far below the directory they start in these components go: 0, or the number of levels
  // as a negative number.
  function Dip(cs: seq<string>): (d: int)
    ensures d <= 0
  {
    if cs == [] then 0
    else
      var d := Dip(cs[1..]) + if cs[0] == "." then 0 else if cs[0] == ".." then -1 else 1;
      if d < 0 then d else 0
  }

  predicate Named(x: string) {
    x != "." && x != ".."
  }

  // x is the k-th component of the directory, and cs do not go up over it.
  predicate Outlasts(stack: seq<string>, cs: seq<string>, x: string, k: nat) {
    k < |stack| && stack[k] == x && |stack| - 1 - k + Dip(cs) >= 0
  }

  // x is the i-th component of the path, and those behind it do not go up over it.
  predicate Remains(cs: seq<string>, x: string, i: nat) {
    i < |cs| && cs[i] == x && Dip(cs[i + 1..]) == 0
  }

  // What is stored in the end: the components that the later ones do not go up over.
  lemma {:induction false} GoAllHas(stack: seq<string>, cs: seq<string>, x: string)
    requires Named(x)
    ensures x in GoAll(stack, cs) <==>
      (exists k: nat :: Outlasts(stack, cs, x, k)) || (exists i: nat :: Remains(cs, x, i))
    decreases |cs|
  {
    if cs == [] {
      if x in stack {
        var k: nat :| k < |stack| && stack[k] == x;
        assert Outlasts(stack, cs, x, k);
      }
    } else {
      var next, rest := Go(stack, cs[0]), cs[1..];
      GoAllHas(next, rest, x);
      forall k: nat | Outlasts(stack, cs, x, k) ensures Outlasts(next, rest, x, k) {}
      forall i: nat | Remains(cs, x, i)
        ensures if i == 0 then Outlasts(next, rest, x, |stack|) else Remains(rest, x, i - 1)
      {
        assert i > 0 ==> cs[i + 1..] == rest[i..];
      }
      forall k: nat | Outlasts(next, rest, x, k)
        ensures if k < |stack| then Outlasts(stack, cs, x, k) else Remains(cs, x, 0) {}
      forall i: nat | Remains(rest, x, i) ensures Remains(cs, x, i + 1) {
        assert cs[i + 2..] == rest[i + 1..];
      }
    }
  }

  // An empty component is stored just when the path has one that nothing behind it goes up over.
  lemma EmptyStoredIff(stack: seq<string>, path: string)
    requires "" !in stack
    ensures "" in Resolve(stack, path) <==> exists i: nat :: Remains(Parts(path), "", i)
  {
    GoAllHas(if Absolute(path) then [] else stack, Parts(path), "");
  }

  lemma {:induction false} NoDip(cs: seq<string>)
    requires ".." !in cs
    ensures Dip(cs) == 0
  {
    if cs != [] {
      NoDip(cs[1..]);
    }
  }

  // Without ".." that is every path with an empty component.
  lemma EmptyStoredWithoutUp(stack: seq<string>, path: string)
    requires "" !in stack && ".." !in Parts(path)
    ensures "" in Resolve(stack, path) <==> "" in Parts(path)
  {
    EmptyStoredIff(stack, path);
    var cs := Parts(path);
    if "" in cs {
      var i: nat :| i < |cs| && cs[i] == "";
      NoDip(cs[i + 1..]);
      assert Remains(cs, "", i);
    }
  }

  // From "/", the path "//" would be stored as "//". It does not get to abspath, because it does
  // not resolve: see ResolvedFull in WorkingDirectory.dfy.
  lemma EmptyIsPushed()
    ensures Resolve([], "//") == [""] && Text([""]) == "//"
  {
    assert Components("/") == [""] + Components("");
    assert Text([""]) == Text([]) + "" + "/";
  }

  // Two directories with the same text are the same: nothing is lost in storing it.
  lemma {:induction false} TextInjective(a: seq<string>, b: seq<string>)
    requires Clean(a) && Clean(b) && Text(a) == Text(b)
    ensures a == b
    decreases |a|
  {
    TextSize(a);
    TextSize(b);
    if a != [] && b != [] {
      LastSlash(a);
      LastSlash(b);
      var x, y := a[..|a| - 1], b[..|b| - 1];
      var t := Text(a);
      assert |Text(x)| == |Text(y)|;
      assert Text(x) == t[..|Text(x)|] && Text(y) == t[..|Text(y)|];
      assert a[|a| - 1] == t[|Text(x)|..|t| - 1] && b[|b| - 1] == t[|Text(y)|..|t| - 1];
      TextInjective(x, y);
    }
  }

  lemma TextSize(a: seq<string>)
    ensures a == [] <==> |Text(a)| == 1
  {}

  // The separator before the last component is the last but one of the text.
  lemma LastSlash(stack: seq<string>)
    requires stack != [] && Clean(stack)
    ensures var init := stack[..|stack| - 1]; var t := Text(stack); var n := |Text(init)|;
      n < |t| && t[..n] == Text(init) && IsSeparator(t[n - 1])
      && forall i :: n <= i < |t| - 1 ==> !IsSeparator(t[i]) && t[i] == stack[|stack| - 1][i - n]
  {}

  lemma {:induction false} TextNoEos(stack: seq<string>)
    requires Clean(stack)
    ensures NoEos(Text(stack))
  {
    if stack != [] {
      TextNoEos(stack[..|stack| - 1]);
    }
  }

  // --------------------------------------------------------- C string routines

  // buf holds the C string s.
  predicate Holds(buf: seq<char>, s: string) {
    |s| < |buf| && buf[..|s|] == s && buf[|s|] == EOS && NoEos(s)
  }

  // strsep: the first separator from position `from` on.
  method StrSep(buf: array<char>, from: nat, ghost s: string) returns (r: Option<nat>)
    requires from <= |s| < buf.Length && buf[from..|s|] == s[from..] && buf[|s|] == EOS && NoEos(s)
    ensures r.None? ==> Component(s[from..]) == s[from..]
    ensures r.Some? ==> from <= r.value < |s| && IsSeparator(s[r.value]) && Component(s[from..]) == s[from..r.value]
  {
    var i := from;
    while true
      invariant from <= i <= |s| && forall k :: from <= k < i ==> !IsSeparator(s[k])
      decreases |s| - i
    {
      assert i < |s| ==> buf[i] == buf[from..|s|][i - from] == s[from..][i - from];
      if IsSeparator(buf[i]) {
        assert s[from..][..i - from] == s[from..i];
        FirstIsComponent(s[from..], i - from);
        return Some(i);
      }
      if buf[i] == EOS {
        assert s[from..][..i - from] == s[from..i];
        FirstIsComponent(s[from..], i - from);
        return None;
      }
      i := i + 1;
    }
  }

  // strrsep: the last separator.
  method StrRSep(buf: array<char>, ghost s: string) returns (r: Option<nat>)
    requires Holds(buf[..], s)
    ensures r.None? ==> Plain(s)
    ensures r.Some? ==> r.value < |s| && IsSeparator(s[r.value]) && Plain(s[r.value + 1..])
  {
    r := None;
    var i := 0;
    while true
      invariant i <= |s|
      invariant r.Some? ==> r.value < i && IsSeparator(s[r.value])
      invariant forall k :: (if r.Some? then r.value + 1 else 0) <= k < i ==> !IsSeparator(s[k])
      decreases |s| - i
    {
      assert i < |s| ==> buf[i] == buf[..][..|s|][i] == s[i];
      if IsSeparator(buf[i]) {
        r := Some(i);
      }
      if buf[i] == EOS {
        assert s[..i] == s;
        return;
      }
      i := i + 1;
    }
  }

  // strncpy(dest + at, src + from, count), when the source has count - 1 characters left.
  method StrNCpy(dest: array<char>, at: nat, src: array<char>, from: nat, count: nat)
    requires dest != src && 0 < count && at + count <= dest.Length && from + count <= src.Length
    requires forall i :: from <= i < from + count - 1 ==> src[i] != EOS
    modifies dest
    ensures forall k :: 0 <= k < dest.Length ==>
      dest[k] == if at <= k < at + count - 1 then src[from + k - at]
                 else if k == at + count - 1 then EOS else old(dest[k])
  {
    var nr := 0;
    while nr < count
      invariant nr <= count
      invariant forall k :: 0 <= k < dest.Length ==>
        dest[k] == if at <= k < at + nr then src[from + k - at] else old(dest[k])
      invariant nr == count ==> src[from + count - 1] != EOS
    {
      dest[at + nr] := src[from + nr];
      if src[from + nr] == EOS {
        return;
      }
      nr := nr + 1;
    }
    dest[at + count - 1] := EOS;
  }

  // memcmp(buf + from, lit, |lit|) == 0
  method Begins(buf: array<char>, from: nat, lit: string) returns (same: bool)
    requires from <= buf.Length && NoEos(lit) && exists e :: from <= e < buf.Length && buf[e] == EOS
    ensures same <==> from + |lit| <= buf.Length && buf[from..from + |lit|] == lit
  {
    var i := 0;
    ghost var e :| from <= e < buf.Length && buf[e] == EOS;
    while i < |lit| && buf[from + i] == lit[i]
      invariant i <= |lit| && from + i <= e && buf[from..from + i] == lit[..i]
    {
      i := i + 1;
    }
    same := i == |lit|;
    assert !same && from + |lit| <= buf.Length ==> buf[from..from + |lit|][i] != lit[i];
  }

  // ------------------------------------------------------------------ abspath

  // pwd holds the directory st, and cur points behind its text.
  ghost predicate At(pwd: seq<char>, st: seq<string>, cur: nat) {
    Clean(st) && cur == |Text(st)| && Holds(pwd, Text(st))
  }

  // ".." : cut the last component off, unless this is the root.
  method Pop(pwd: array<char>, cur: nat, ghost st: seq<string>) returns (next: nat)
    requires At(pwd[..], st, cur)
    modifies pwd
    ensures At(pwd[..], Go(st, ".."), next)
  {
    TextSize(st);
    hide Holds, Clean, Text, At;
    AtText(pwd[..], st, cur);
    if cur - 1 != 0 {
      next := CutLast(pwd, cur, Text(st), |Text(st[..|st| - 1])|);
      AtInit(pwd[..], st, next);
    } else {
      next := cur;
    }
  }

  lemma AtText(pwd: seq<char>, st: seq<string>, cur: nat)
    requires At(pwd, st, cur)
    ensures Clean(st) && Holds(pwd, Text(st)) && cur == |Text(st)|
    ensures st != [] ==> Cuts(Text(st), |Text(st[..|st| - 1])|)
  {
    if st != [] {
      LastSlash(st);
    }
  }

  lemma AtInit(pwd: seq<char>, st: seq<string>, next: nat)
    requires st != [] && Clean(st) && next == |Text(st[..|st| - 1])| <= |Text(st)|
    requires Holds(pwd, Text(st)[..next])
    ensures At(pwd, st[..|st| - 1], next)
  {
    LastSlash(st);
  }

  // The last separator before the end of t, which is one itself, is just before place n.
  predicate Cuts(t: string, n: nat) {
    0 < n < |t| && IsSeparator(t[n - 1]) && forall i :: n <= i < |t| - 1 ==> !IsSeparator(t[i])
  }

  // The terminator goes over the last character, and then behind the last separator there is.
  method CutLast(pwd: array<char>, cur: nat, ghost t: string, ghost n: nat) returns (next: nat)
    requires Holds(pwd[..], t) && cur == |t| && Cuts(t, n)
    modifies pwd
    ensures next == n && Holds(pwd[..], t[..n])
  {
    pwd[cur - 1] := EOS;
    HoldsPrefix(old(pwd[..]), pwd[..], t, cur - 1);
    var sep := StrRSep(pwd, t[..cur - 1]);
    LastSeparator(t[..cur - 1], n - 1, sep);
    next := sep.value + 1;
    ghost var was := pwd[..];
    pwd[next] := EOS;
    HoldsPrefix(was, pwd[..], t[..cur - 1], next);
    assert t[..cur - 1][..next] == t[..next];
  }

  lemma HoldsPrefix(was: seq<char>, now: seq<char>, t: string, n: nat)
    requires Holds(was, t) && n <= |t| && now == was[n := EOS]
    ensures Holds(now, t[..n])
  {
    assert now[..n] == was[..|t|][..n];
  }

  // There is one last separator.
  lemma LastSeparator(s: string, n: nat, r: Option<nat>)
    requires n < |s| && IsSeparator(s[n]) && forall i :: n < i < |s| ==> !IsSeparator(s[i])
    requires r.None? ==> Plain(s)
    requires r.Some? ==> r.value < |s| && IsSeparator(s[r.value]) && Plain(s[r.value + 1..])
    ensures r == Some(n)
  {
    assert r.Some? ==> forall k :: r.value + 1 <= k < |s| ==> s[k] == s[r.value + 1..][k - r.value - 1];
  }

  // The text grows by a component and its separator; dest is what the copying left.
  lemma Pushed(before: seq<char>, after: seq<char>, st: seq<string>, cur: nat, c: string)
    requires At(before, st, cur) && Plain(c) && NoEos(c) && |after| == |before| && cur + |c| + 1 < |after|
    requires after[..cur] == before[..cur] && after[cur..cur + |c|] == c && after[cur + |c|] == '/' &&
      after[cur + |c| + 1] == EOS
    ensures At(after, st + [c], cur + |c| + 1)
  {
    var t := st + [c];
    assert t[..|t| - 1] == st;
    TextNoEos(t);
    assert after[..cur + |c| + 1] == Text(t);
  }

  // Where abspath starts: at the root, or behind the last separator.
  method Start(pwd: array<char>, absolute: bool, ghost st: seq<string>) returns (cur: nat)
    requires At(pwd[..], st, |Text(st)|)
    modifies pwd
    ensures At(pwd[..], if absolute then [] else st, cur)
  {
    var t := Text(st);
    assert pwd[..][..|t|] == t;
    if absolute {
      cur := 1;
      pwd[cur] := EOS;
      assert pwd[..][..1] == "/";
    } else {
      var sep := StrRSep(pwd, t);
      LastSeparator(t, |t| - 1, sep);
      cur := sep.value + 1;
      pwd[cur] := EOS;
      assert pwd[..][..cur] == t;
    }
  }

  // path, read up to position pos, still holds p from there on.
  ghost predicate Ahead(path: seq<char>, p: string, pos: nat) {
    pos <= |p| < |path| && path[pos..|p|] == p[pos..] && path[|p|] == EOS && NoEos(p)
  }

  // Pushing the component and its separator.
  method Push(pwd: array<char>, path: array<char>, cur: nat, pos: nat, len: nat, ghost st: seq<string>, ghost c: string)
    returns (next: nat)
    requires pwd != path && At(pwd[..], st, cur) && Plain(c) && NoEos(c) && len == |c| + 1
    requires pos + len < path.Length && path[pos..pos + len] == c + "/" && cur + len + 1 < pwd.Length
    modifies pwd
    ensures At(pwd[..], st + [c], next) && next == cur + len
  {
    ghost var before := pwd[..];
    assert forall k :: 0 <= k < len ==> path[pos + k] == path[pos..pos + len][k] == (c + "/")[k];
    assert forall k :: pos <= k < pos + len ==> path[k] == path[pos..pos + len][k - pos];
    StrNCpy(pwd, cur, path, pos, len + 1);
    next := cur + len;
    forall k | 0 <= k < |c| ensures pwd[cur + k] == c[k] {
      assert path[pos..pos + len][k] == (c + "/")[k];
    }
    assert pwd[cur + |c|] == path[pos..pos + len][|c|];
    assert pwd[cur..cur + |c|] == c;
    Pushed(before, pwd[..], st, cur, c);
  }

  lemma AheadChars(path: seq<char>, p: string, pos: nat)
    requires Ahead(path, p, pos)
    ensures forall k :: pos <= k < |p| ==> path[k] == p[k]
  {
    assert forall k :: pos <= k < |p| ==> path[k] == path[pos..|p|][k - pos] == p[pos..][k - pos] == p[k];
  }

  // One round of the loop: the component that ends at the separator `end`.
  method Round(pwd: array<char>, path: array<char>, cur: nat, pos: nat, end: nat, ghost st: seq<string>,
      ghost p: string)
    returns (next: nat)
    requires pwd != path && At(pwd[..], st, cur) && Ahead(path[..], p, pos)
    requires pos <= end < |p| && IsSeparator(p[end]) && Component(p[pos..]) == p[pos..end]
    requires cur + (|p| - pos) + 2 <= pwd.Length
    modifies pwd, path
    ensures At(pwd[..], Go(st, p[pos..end]), next) && Ahead(path[..], p, end + 1)
    ensures next <= cur + (end + 1 - pos)
    ensures forall k :: 0 <= k < path.Length ==> path[k] == if k == end then '/' else old(path[k])
  {
    AheadChars(path[..], p, pos);
    ghost var c := p[pos..end];
    path[end] := '/';
    assert path[pos..end] == c;
    assert path[..][end + 1..|p|] == p[end + 1..];
    assert Plain(c) && NoEos(c) && path[|p|] == EOS;
    hide Text, Holds, Plain, IsSeparator, Clean;
    next := GoTo(pwd, path, cur, pos, end, st, c);
  }

  // The component in path[pos..end], a '/' behind it.
  method GoTo(pwd: array<char>, path: array<char>, cur: nat, pos: nat, end: nat, ghost st: seq<string>, ghost c: string)
    returns (next: nat)
    requires pwd != path && At(pwd[..], st, cur) && Plain(c) && NoEos(c)
    requires pos <= end && end + 1 < path.Length && path[pos..end] == c && path[end] == '/'
    requires exists e :: end < e < path.Length && path[e] == EOS
    requires cur + (end - pos) + 3 <= pwd.Length
    modifies pwd
    ensures At(pwd[..], Go(st, c), next) && next <= cur + (end + 1 - pos)
  {
    hide Text, Holds, Clean;
    var here := Begins(path, pos, "./");
    NamedBy(path[..], pos, end, c, ".", here);
    if here {
      return cur;
    }
    var up := Begins(path, pos, "../");
    NamedBy(path[..], pos, end, c, "..", up);
    if up {
      next := Pop(pwd, cur, st);
      TextShrinks(st);
      return;
    }
    assert path[pos..end + 1] == c + "/";
    next := Push(pwd, path, cur, pos, end - pos + 1, st, c);
  }

  lemma TextShrinks(st: seq<string>)
    ensures |Text(Go(st, ".."))| <= |Text(st)|
  {}

  // The separator found ends the next component.
  lemma NextComponent(st: seq<string>, p: string, pos: nat, end: nat)
    requires pos <= end < |p| && IsSeparator(p[end]) && Component(p[pos..]) == p[pos..end]
    ensures GoAll(st, Components(p[pos..])) == GoAll(Go(st, p[pos..end]), Components(p[end + 1..]))
  {
    var rest := p[pos..];
    assert rest[end - pos + 1..] == p[end + 1..];
    var cs := Components(rest);
    assert cs == [p[pos..end]] + Components(p[end + 1..]);
    assert cs[0] == p[pos..end] && cs[1..] == Components(p[end + 1..]);
  }

  // memcmp with "./" or "../" tells whether the component is that name.
  lemma NamedBy(path: seq<char>, pos: nat, end: nat, c: string, name: string, same: bool)
    requires pos <= end < |path| && path[pos..end] == c && path[end] == '/' && Plain(c) && Plain(name)
    requires same <==> pos + |name| + 1 <= |path| && path[pos..pos + |name| + 1] == name + "/"
    ensures same <==> c == name
  {
    assert path[pos..end + 1] == c + "/";
    var rest := path[pos..];
    assert rest[..end - pos] == c;
    FirstIsComponent(rest, end - pos);
    if same {
      assert path[pos..pos + |name| + 1][|name|] == '/' == rest[|name|];
      assert rest[..|name|] == path[pos..pos + |name| + 1][..|name|];
      FirstIsComponent(rest, |name|);
    }
  }

  // What is left behind the last separator.
  method Last(pwd: array<char>, path: array<char>, cur: nat, pos: nat, ghost st: seq<string>, ghost p: string)
    requires pwd != path && At(pwd[..], st, cur) && Ahead(path[..], p, pos) && Component(p[pos..]) == p[pos..]
    requires cur + (|p| - pos) + 2 <= pwd.Length
    modifies pwd
    ensures exists next :: At(pwd[..], GoAll(st, Components(p[pos..])), next)
  {
    ghost var c := p[pos..];
    AheadChars(path[..], p, pos);
    assert path[pos..pos + |c|] == c;
    hide Text, Holds;
    assert c != "" ==> Components(c) == [c] && GoAll(st, [c]) == Go(st, c);
    assert c != "" ==> path[pos] == c[0] && c[0] != EOS;
    if path[pos] == EOS {
      assert At(pwd[..], GoAll(st, Components(c)), cur);
      return;
    }
    assert pos < |p|;
    var here := Same(path, pos, ".", c);
    if here {
      assert At(pwd[..], Go(st, c), cur);
      return;
    }
    var up := Same(path, pos, "..", c);
    if !up {
      PushLast(pwd, path, cur, pos, st, c);
      return;
    }
    var next := Pop(pwd, cur, st);
  }

  // strcpy, then the separator behind it.
  method PushLast(pwd: array<char>, path: array<char>, cur: nat, pos: nat, ghost st: seq<string>, ghost c: string)
    requires pwd != path && At(pwd[..], st, cur) && Plain(c) && pos + |c| < path.Length && cur + |c| + 2 <= pwd.Length
    requires path[pos..pos + |c|] == c && path[pos + |c|] == EOS && NoEos(c)
    modifies pwd
    ensures At(pwd[..], st + [c], cur + |c| + 1)
  {
    ghost var before := pwd[..];
    var len := StrLen(path, pos, c);
    assert forall k :: 0 <= k < len ==> path[pos + k] == path[pos..pos + len][k] == c[k];
    StrNCpy(pwd, cur, path, pos, len + 1);
    pwd[cur + len] := '/';
    pwd[cur + len + 1] := EOS;
    assert pwd[cur..cur + len] == c;
    Pushed(before, pwd[..], st, cur, c);
  }

  // strlen
  method StrLen(path: array<char>, pos: nat, ghost c: string) returns (len: nat)
    requires pos + |c| < path.Length && path[pos..pos + |c|] == c && path[pos + |c|] == EOS && NoEos(c)
    ensures len == |c|
  {
    len := 0;
    while path[pos + len] != EOS
      invariant len <= |c|
      decreases |c| - len
    {
      len := len + 1;
    }
  }

  // strcmp(path + pos, name) == 0
  method Same(path: array<char>, pos: nat, name: string, ghost c: string) returns (same: bool)
    requires pos + |c| < path.Length && path[pos..pos + |c|] == c && path[pos + |c|] == EOS && NoEos(c) && NoEos(name)
    ensures same <==> c == name
  {
    var i := 0;
    while i < |name| && path[pos + i] == name[i]
      invariant i <= |name| && i <= |c| && c[..i] == name[..i]
    {
      assert i < |c| ==> path[pos..pos + |c|][i] == c[i];
      i := i + 1;
    }
    same := i == |name| && path[pos + i] == EOS;
    assert i < |c| ==> path[pos..pos + |c|][i] == c[i];
    if same {
      assert c[..i] == c && name[..i] == name;
    }
  }

  // The path's text afterwards: the loop turns the separators it passes into '/'.
  function Slashed(p: string): (r: string)
    ensures |r| == |p|
    ensures forall k :: 0 <= k < |p| ==> r[k] == if IsSeparator(p[k]) && !(k == 0 && Absolute(p)) then '/' else p[k]
  {
    seq(|p|, k requires 0 <= k < |p| => if IsSeparator(p[k]) && !(k == 0 && Absolute(p)) then '/' else p[k])
  }

  method AbsPath(pwd: array<char>, path: array<char>, ghost st: seq<string>, ghost p: string)
    requires pwd != path && At(pwd[..], st, |Text(st)|) && Ahead(path[..], p, 0)
    requires |Text(st)| + |p| + 2 <= pwd.Length
    modifies pwd, path
    ensures At(pwd[..], Resolve(st, p), |Text(Resolve(st, p))|)
    ensures path[..] == Slashed(p) + old(path[|p|..])
  {
    AheadChars(path[..], p, 0);
    hide Text, Holds;
    var absolute := IsSeparator(path[0]);
    assert p == "" ==> path[0] == EOS;
    TextSize(st);
    TextSize([]);
    var cur: nat := Start(pwd, absolute, st);
    var pos: nat := if absolute then 1 else 0;
    ghost var now := if absolute then [] else st;
    assert p[0..] == p;
    assert GoAll(now, Components(p[pos..])) == Resolve(st, p);
    PassedStart(p, pos, path[..]);
    AbsPathLoop(pwd, path, cur, pos, now, p, old(path[..]));
    PassedToEnd(p, old(path[..]));
  }

  // The path's text when the separators before pos have been passed.
  ghost function Passed(p: string, pos: nat, was: seq<char>): (r: seq<char>)
    requires |p| <= |was|
    ensures |r| == |was|
  {
    seq(|was|, k requires 0 <= k < |was| => if k < |p| && k < pos then Slashed(p)[k] else was[k])
  }

  lemma PassedStart(p: string, pos: nat, was: seq<char>)
    requires |p| <= |was| && forall k :: 0 <= k < |p| ==> was[k] == p[k]
    requires pos == if Absolute(p) then 1 else 0
    ensures Passed(p, pos, was) == was
  {
    if Absolute(p) {
      assert Slashed(p)[0] == p[0];
    }
  }

  lemma PassedToEnd(p: string, was: seq<char>)
    requires |p| <= |was|
    ensures Passed(p, |p|, was) == Slashed(p) + was[|p|..]
  {}

  lemma PassedNext(p: string, pos: nat, end: nat, was: seq<char>)
    requires pos <= end < |p| < |was| && IsSeparator(p[end]) && Plain(p[pos..end]) && (end == 0 ==> !Absolute(p))
    requires forall k :: 0 <= k < |p| ==> was[k] == p[k]
    ensures Passed(p, end + 1, was) == Passed(p, pos, was)[end := '/']
  {
    var a, b := Passed(p, end + 1, was), Passed(p, pos, was)[end := '/'];
    forall k | 0 <= k < |was| ensures a[k] == b[k] {
      if pos <= k < end {
        assert !IsSeparator(p[pos..end][k - pos]);
        assert Slashed(p)[k] == p[k];
      } else if k == end {
        assert Slashed(p)[k] == '/';
      }
    }
  }

  lemma PassedAll(p: string, pos: nat, was: seq<char>)
    requires pos <= |p| < |was| && Plain(p[pos..])
    requires forall k :: 0 <= k < |p| ==> was[k] == p[k]
    ensures Passed(p, pos, was) == Passed(p, |p|, was)
  {
    var a, b := Passed(p, pos, was), Passed(p, |p|, was);
    forall k | 0 <= k < |was| ensures a[k] == b[k] {
      if pos <= k < |p| {
        assert !IsSeparator(p[pos..][k - pos]);
        assert Slashed(p)[k] == p[k];
      }
    }
  }

  lemma NothingAhead(path: seq<char>, p: string, pos: nat)
    requires Ahead(path, p, pos) && path[pos] == EOS
    ensures pos == |p| && Component(p[pos..]) == p[pos..]
  {
    AheadChars(path, p, pos);
  }

  // The loop, and what follows it.
  method AbsPathLoop(pwd: array<char>, path: array<char>, start: nat, from: nat, ghost st: seq<string>, ghost p: string,
                     ghost was: seq<char>)
    requires pwd != path && At(pwd[..], st, start) && Ahead(path[..], p, from) && start + (|p| - from) + 2 <= pwd.Length
    requires |p| < |was| && path[..] == Passed(p, from, was) && (from == 0 ==> !Absolute(p))
    requires forall k :: 0 <= k < |p| ==> was[k] == p[k]
    modifies pwd, path
    ensures exists next :: At(pwd[..], GoAll(st, Components(p[from..])), next)
    ensures path[..] == Passed(p, |p|, was)
  {
    hide Text, Holds, At, GoAll, Passed, Components, Component, Plain, Go;
    var cur: nat := start;
    var pos: nat := from;
    ghost var now := st;
    while path[pos] != EOS
      invariant At(pwd[..], now, cur) && Ahead(path[..], p, pos) && cur + (|p| - pos) + 2 <= pwd.Length
      invariant GoAll(now, Components(p[pos..])) == GoAll(st, Components(p[from..]))
      invariant path[..] == Passed(p, pos, was) && from <= pos
      decreases |p| - pos
    {
      var end := StrSep(path, pos, p);
      if end.None? {
        break;
      }
      NextComponent(now, p, pos, end.value);
      cur := Round(pwd, path, cur, pos, end.value, now, p);
      now := Go(now, p[pos..end.value]);
      PassedNext(p, pos, end.value, was);
      assert path[..] == Passed(p, pos, was)[end.value := '/'];
      pos := end.value + 1;
    }
    if path[pos] == EOS {
      NothingAhead(path[..], p, pos);
    }
    PassedAll(p, pos, was);
    Last(pwd, path, cur, pos, now, p);
  }
}
