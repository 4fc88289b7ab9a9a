/** Paths as strings: pushing, iterating over components, parents and ancestors. The reference
    meaning of a path is its split at '/', with empty and "." segments dropped. */
module Paths {
  import opened Sequences
  import opened Wrappers

  const SEP: char := '/'

  datatype Component = RootDir | ParentDir | Normal(name: string)

  predicate IsAbsolute(p: string) {
    p != [] && p[0] == SEP
  }

  // ---- string searches ----

  /** The position of the first separator, or the length. */
  function FirstSep(s: string): (i: nat)
    ensures i <= |s| && SEP !in s[..i] && (i < |s| ==> s[i] == SEP)
  {
    if s == [] || s[0] == SEP then 0
    else
      var i := FirstSep(s[1..]);
      assert s[..i + 1] == [s[0]] + s[1..][..i];
      i + 1
  }

  /** The position of the last separator. */
  function LastSep(s: string): (r: Option<nat>)
    ensures r.None? ==> SEP !in s
    ensures r.Some? ==> r.value < |s| && s[r.value] == SEP && SEP !in s[r.value + 1..]
  {
    if s == [] then None
    else if s[|s| - 1] == SEP then Some(|s| - 1)
    else
      var r := LastSep(s[..|s| - 1]);
      assert s == s[..|s| - 1] + [s[|s| - 1]];
      assert r.Some? ==> s[r.value + 1..] == s[..|s| - 1][r.value + 1..] + [s[|s| - 1]];
      r
  }

  function TrimStart(s: string): (r: string)
    ensures |r| <= |s| && !IsAbsolute(r)
  {
    if IsAbsolute(s) then TrimStart(s[1..]) else s
  }

  function TrimEnd(s: string): (r: string)
    ensures r <= s && (r != [] ==> r[|r| - 1] != SEP)
  {
    if s != [] && s[|s| - 1] == SEP then TrimEnd(s[..|s| - 1]) else s
  }

  // ---- the reference meaning ----

  /** What one segment between separators stands for. */
  function Named(segment: string): seq<Component> {
    if segment == "" || segment == "." then []
    else if segment == ".." then [ParentDir]
    else [Normal(segment)]
  }

  /** The components of the segments of `s`, split at every separator. */
  ghost function Parts(s: string): seq<Component>
    decreases |s|
  {
    var i := FirstSep(s);
    if i == |s| then Named(s) else Named(s[..i]) + Parts(s[i + 1..])
  }

  ghost function ComponentsOf(p: string): seq<Component> {
    (if IsAbsolute(p) then [RootDir] else []) + Parts(p)
  }

  lemma {:induction false} FirstSepAt(s: string, i: nat)
    requires i <= |s| && SEP !in s[..i] && (i < |s| ==> s[i] == SEP)
    ensures FirstSep(s) == i
  {
    if i > 0 {
      assert s[0] == s[..i][0];
      assert s[1..][..i - 1] == s[..i][1..];
      FirstSepAt(s[1..], i - 1);
    }
  }

  lemma PartsEmpty()
    ensures Parts([]) == []
  {
  }

  lemma SingleSegment(s: string)
    requires SEP !in s
    ensures Parts(s) == Named(s)
  {
    FirstSepAt(s, |s|);
  }

  lemma PartsAt(s: string, i: nat)
    requires i < |s| && SEP !in s[..i] && s[i] == SEP
    ensures Parts(s) == Named(s[..i]) + Parts(s[i + 1..])
  {
    FirstSepAt(s, i);
  }

  /** A separator cuts the components in two. */
  lemma {:induction false} PartsSplit(a: string, b: string)
    ensures Parts(a + [SEP] + b) == Parts(a) + Parts(b)
    decreases |a|
  {
    hide Parts, Named;
    var s, i := a + [SEP] + b, FirstSep(a);
    assert s[..i] == a[..i];
    PartsAt(s, i);
    if i == |a| {
      assert s[i + 1..] == b && s[..i] == a;
      SingleSegment(a);
    } else {
      assert s[i + 1..] == a[i + 1..] + [SEP] + b;
      PartsAt(a, i);
      PartsSplit(a[i + 1..], b);
      Associate(Named(a[..i]), Parts(a[i + 1..]), Parts(b));
    }
  }

  lemma LeadingSep(s: string)
    requires IsAbsolute(s)
    ensures Parts(s) == Parts(s[1..])
  {
    hide Parts;
    assert s == [] + [SEP] + s[1..];
    PartsSplit([], s[1..]);
    PartsEmpty();
  }

  lemma TrailingSep(s: string)
    requires s != [] && s[|s| - 1] == SEP
    ensures Parts(s) == Parts(s[..|s| - 1])
  {
    hide Parts;
    assert s == s[..|s| - 1] + [SEP] + [];
    PartsSplit(s[..|s| - 1], []);
    PartsEmpty();
  }

  lemma {:induction false} TrimStartParts(s: string)
    ensures Parts(TrimStart(s)) == Parts(s)
  {
    if IsAbsolute(s) {
      LeadingSep(s);
      TrimStartParts(s[1..]);
    }
  }

  lemma {:induction false} TrimEndParts(s: string)
    ensures Parts(TrimEnd(s)) == Parts(s)
    decreases |s|
  {
    if s != [] && s[|s| - 1] == SEP {
      TrailingSep(s);
      TrimEndParts(s[..|s| - 1]);
    }
  }

  /** Taking the first segment off leaves the components of the rest. */
  lemma FirstSegment(s: string)
    ensures Parts(s) == Named(s[..FirstSep(s)]) + Parts(s[FirstSep(s)..])
  {
    var i := FirstSep(s);
    if i == |s| {
      assert s[..i] == s && s[i..] == [];
      assert Parts([]) == [];
    } else {
      LeadingSep(s[i..]);
      assert s[i..][1..] == s[i + 1..];
    }
  }

  // ---- iterating over components ----

  /** A component that stands for itself when pushed: one segment, not empty and not ".". */
  predicate Proper(c: Component) {
    c.Normal? ==> SEP !in c.name && c.name != "" && c.name != "." && c.name != ".."
  }

  function AsStr(c: Component): string {
    match c
    case RootDir => "/"
    case ParentDir => ".."
    case Normal(s) => s
  }

  class Components {
    var rest: string
    var rootPending: bool

    /** What the iterator has still to deliver. */
    ghost function Remaining(): seq<Component>
      reads this
    {
      (if rootPending then [RootDir] else []) + Parts(rest)
    }

    constructor (path: string)
      ensures Remaining() == ComponentsOf(path) && rootPending == IsAbsolute(path)
    {
      rest, rootPending := path, IsAbsolute(path);
    }

    /** Delivers the first remaining component; None exactly when none remains. */
    method Next() returns (r: Option<Component>)
      modifies this
      ensures old(Remaining()) == match r { case None => [] case Some(c) => [c] + Remaining() }
      ensures r.None? ==> Remaining() == []
      ensures !rootPending && (r == Some(RootDir) <==> old(rootPending))
      ensures r.Some? ==> Proper(r.value)
    {
      hide Parts, TrimStart;
      PartsEmpty();
      if rootPending {
        rootPending := false;
        return Some(RootDir);
      }
      while true
        invariant !rootPending && Parts(rest) == old(Parts(rest))
        decreases |rest|
      {
        TrimStartParts(rest);
        rest := TrimStart(rest);
        if rest == [] {
          return None;
        }
        var end := FirstSep(rest);
        var segment := rest[..end];
        FirstSegment(rest);
        rest := rest[end..];
        if segment == "." {
        } else if segment == ".." {
          return Some(ParentDir);
        } else {
          return Some(Normal(segment));
        }
      }
    }
  }

  // ---- pushing ----

  /** The text a push leaves. */
  function Joined(base: string, p: string): string {
    if IsAbsolute(p) then p
    else if base != [] && base[|base| - 1] != SEP then base + [SEP] + p
    else base + p
  }

  /** Joining a relative path appends its components; an absolute one replaces the base. */
  lemma JoinComponents(base: string, p: string)
    ensures ComponentsOf(Joined(base, p)) ==
            if IsAbsolute(p) then ComponentsOf(p) else ComponentsOf(base) + ComponentsOf(p)
  {
    hide Parts;
    PartsEmpty();
    if base == [] {
      assert Joined(base, p) == p;
    } else if !IsAbsolute(p) {
      var stem := if base[|base| - 1] == SEP then base[..|base| - 1] else base;
      var whole := Joined(base, p);
      assert whole == stem + [SEP] + p;
      PartsSplit(stem, p);
      assert Parts(base) == Parts(stem) by {
        if base[|base| - 1] == SEP { TrailingSep(base); }
      }
      assert IsAbsolute(whole) == IsAbsolute(base) by { assert whole[0] == base[0]; }
    }
  }

  class PathBuf {
    var text: string

    constructor (s: string)
      ensures text == s
    {
      text := s;
    }

    method Push(p: string)
      modifies this
      ensures text == Joined(old(text), p)
      ensures IsAbsolute(p) ==> text == p
      ensures !IsAbsolute(p) ==>
                var bare := old(text) == "" || old(text)[|old(text)| - 1] == '/';
                text == old(text) + (if bare then "" else "/") + p
      ensures !IsAbsolute(p) ==> ComponentsOf(text) == old(ComponentsOf(text)) + ComponentsOf(p)
    {
      JoinComponents(text, p);
      if IsAbsolute(p) {
        text := [];
        text := text + p;
        return;
      }
      if text != [] && text[|text| - 1] != SEP {
        text := text + [SEP];
      }
      text := text + p;
    }

    /** Drops the last segment when there is a parent, and otherwise changes nothing. */
    method Pop() returns (popped: bool)
      modifies this
      ensures popped == Parent(old(text)).Some?
      ensures text == if popped then Parent(old(text)).value else old(text)
      ensures popped ==> |text| < old(|text|)
    {
      var parent := Parent(text);
      ParentShorter(text);
      match parent {
        case Some(p) =>
          text := p;
          popped := true;
        case None =>
          popped := false;
      }
    }
  }

  lemma RootComponents()
    ensures ComponentsOf("/") == [RootDir]
  {
    LeadingSep("/");
    assert "/"[1..] == [];
    PartsEmpty();
  }

  lemma ComponentText(c: Component)
    requires Proper(c)
    ensures ComponentsOf(AsStr(c)) == [c] && (IsAbsolute(AsStr(c)) <==> c == RootDir)
  {
    var s := AsStr(c);
    if c == RootDir {
      RootComponents();
    } else {
      assert SEP !in s;
      FirstSepAt(s, |s|);
    }
  }

  /** Pushing the components of any path back, one by one, rebuilds a path with the same
      components. */
  method Rebuild(path: string) returns (text: string)
    ensures ComponentsOf(text) == ComponentsOf(path)
  {
    var components := new Components(path);
    var buf := new PathBuf([]);
    PartsEmpty();
    assert ComponentsOf([]) == [];
    hide Parts, ComponentsOf, IsAbsolute, Proper;
    while true
      invariant ComponentsOf(buf.text) + components.Remaining() == ComponentsOf(path)
      invariant components.rootPending ==> ComponentsOf(buf.text) == []
      invariant fresh(buf) && fresh(components)
      decreases |components.Remaining()|
    {
      ghost var built, before := ComponentsOf(buf.text), components.Remaining();
      var c := components.Next();
      if c.None? {
        return buf.text;
      }
      PushComponent(buf, c.value);
      Associate(built, [c.value], components.Remaining());
    }
  }

  method PushComponent(buf: PathBuf, c: Component)
    requires Proper(c) && (c == RootDir ==> ComponentsOf(buf.text) == [])
    modifies buf
    ensures ComponentsOf(buf.text) == old(ComponentsOf(buf.text)) + [c]
  {
    hide Parts, ComponentsOf, Proper, AsStr;
    ComponentText(c);
    buf.Push(AsStr(c));
  }

  // ---- parents ----

  function Parent(p: string): Option<string> {
    var trimmed := TrimEnd(p);
    match LastSep(trimmed)
    case None => None
    case Some(i) => if i == 0 then Some("/") else Some(trimmed[..i])
  }

  /** The last segment of a path, trailing separators aside. */
  ghost function FinalSegment(p: string): string {
    var trimmed := TrimEnd(p);
    match LastSep(trimmed)
    case None => trimmed
    case Some(i) => trimmed[i + 1..]
  }

  /** A parent is strictly shorter. */
  lemma ParentShorter(p: string)
    ensures Parent(p).Some? ==> |Parent(p).value| < |p|
  {
    var trimmed := TrimEnd(p);
    var i := LastSep(trimmed);
    if i.Some? {
      assert i.value != |trimmed| - 1;
    }
  }

  lemma TrimEndAbsolute(p: string)
    ensures IsAbsolute(TrimEnd(p)) ==> IsAbsolute(p)
    ensures IsAbsolute(p) ==> TrimEnd(p) == [] || IsAbsolute(TrimEnd(p))
  {
  }

  /** The parent has the components of the path without those of its last segment, and only
      paths of at most one component have no parent. */
  lemma ParentComponents(p: string)
    ensures Parent(p).Some? ==> ComponentsOf(p) == ComponentsOf(Parent(p).value) + Named(FinalSegment(p))
    ensures Parent(p).None? ==> |ComponentsOf(p)| <= 1
  {
    hide Parts, TrimEnd, LastSep, FirstSep;
    var trimmed := TrimEnd(p);
    TrimEndParts(p);
    TrimEndAbsolute(p);
    PartsEmpty();
    match LastSep(trimmed) {
      case None =>
        SingleSegment(trimmed);
      case Some(i) =>
        var stem, last := trimmed[..i], trimmed[i + 1..];
        assert trimmed == stem + [SEP] + last;
        PartsSplit(stem, last);
        SingleSegment(last);
        if i == 0 {
          RootComponents();
          assert ComponentsOf(p) == [RootDir] + Named(last);
        } else {
          assert IsAbsolute(stem) == IsAbsolute(p);
        }
    }
  }

  lemma {:induction false} LastSepAt(s: string, i: nat)
    requires i < |s| && s[i] == SEP && SEP !in s[i + 1..]
    ensures LastSep(s) == Some(i)
    decreases |s|
  {
    if i < |s| - 1 {
      assert s[|s| - 1] == s[i + 1..][|s| - i - 2];
      assert s[..|s| - 1][i + 1..] == s[i + 1..][..|s| - i - 2];
      LastSepAt(s[..|s| - 1], i);
    }
  }

  function Seps(k: nat): string {
    seq(k, _ => '/')
  }

  lemma {:induction false} TrimEndText(s: string, k: nat)
    requires s == [] || s[|s| - 1] != '/'
    ensures TrimEnd(s + Seps(k)) == s
  {
    if k == 0 {
      assert s + Seps(0) == s;
    } else {
      var whole := s + Seps(k);
      assert whole[..|whole| - 1] == s + Seps(k - 1);
      TrimEndText(s, k - 1);
    }
  }

  /** The parent as text. Separators at the end do not count; a single name, or nothing, has no parent;
      otherwise the parent is what stands before the name, or the root. */
  lemma ParentText(stem: string, name: string, k: nat)
    requires '/' !in name
    ensures Parent(name + Seps(k)).None?
    ensures name != [] ==> Parent(stem + "/" + name + Seps(k)) == Some(if stem == "" then "/" else stem)
  {
    hide LastSep, TrimEnd;
    TrimEndText(name, k);
    if name != [] {
      LastOfJoin(stem, name);
      TrimEndText(stem + "/" + name, k);
    }
  }

  lemma LastOfJoin(stem: string, name: string)
    requires '/' !in name && name != []
    ensures var s := stem + "/" + name; s[|s| - 1] != '/' && LastSep(s) == Some(|stem|) && s[..|stem|] == stem
  {
    hide LastSep;
    var s := stem + "/" + name;
    assert s[|s| - 1] == name[|name| - 1] && name[|name| - 1] in name;
    assert s[|stem| + 1..] == name;
    LastSepAt(s, |stem|);
  }

  /** Every path has one of those two shapes. */
  lemma PathShape(p: string) returns (stem: string, name: string, k: nat)
    ensures '/' !in name
    ensures p == name + Seps(k) || (name != [] && p == stem + "/" + name + Seps(k))
  {
    k := TrimEndSeps(p);
    var trimmed := TrimEnd(p);
    match LastSep(trimmed) {
      case None =>
        stem, name := "", trimmed;
      case Some(i) =>
        stem, name := trimmed[..i], trimmed[i + 1..];
        assert trimmed == stem + "/" + name;
    }
  }

  lemma {:induction false} TrimEndSeps(p: string) returns (k: nat)
    ensures p == TrimEnd(p) + Seps(k)
  {
    if p != [] && p[|p| - 1] == SEP {
      k := TrimEndSeps(p[..|p| - 1]);
      assert p == p[..|p| - 1] + "/" && Seps(k + 1) == Seps(k) + "/";
      k := k + 1;
    } else {
      k := 0;
    }
  }

  lemma ParentOfJoin(stem: string, name: string)
    requires name != [] && SEP !in name
    ensures Parent(stem + [SEP] + name) == Some(if stem == [] then "/" else stem)
  {
    ParentText(stem, name, 0);
    assert stem + "/" + name + Seps(0) == stem + [SEP] + name;
  }

  /** Popping undoes pushing a name, up to separators at the end of the base. */
  lemma PopUndoesPush(base: string, name: string)
    requires base != [] && name != [] && SEP !in name
    ensures Parent(Joined(base, name)).Some?
    ensures ComponentsOf(Parent(Joined(base, name)).value) == ComponentsOf(base)
    ensures base[|base| - 1] != SEP ==> Parent(Joined(base, name)) == Some(base)
  {
    hide Parts, Parent;
    if base[|base| - 1] == SEP {
      var stem := base[..|base| - 1];
      assert Joined(base, name) == stem + [SEP] + name;
      ParentOfJoin(stem, name);
      TrailingSep(base);
      assert base == stem + [SEP];
    } else {
      ParentOfJoin(base, name);
    }
  }

  // ---- ancestors ----

  class Ancestors {
    var next: Option<string>

    constructor (path: string)
      ensures next == Some(path)
    {
      next := Some(path);
    }

    method Next() returns (r: Option<string>)
      modifies this
      ensures r == old(next)
      ensures next == if r.None? then None else Parent(r.value)
      ensures r.Some? && next.Some? ==> |next.value| < |r.value|
    {
      if next.None? {
        return None;
      }
      var cur := next.value;
      ParentShorter(cur);
      next := Parent(cur);
      r := Some(cur);
    }
  }

  /** The iteration over ancestors ends: it is the chain of parents from the path itself to a
      path without a parent. */
  method AllAncestors(path: string) returns (chain: seq<string>)
    ensures 1 <= |chain| <= |path| + 1 && chain[0] == path
    ensures forall i :: 0 <= i < |chain| - 1 ==> Parent(chain[i]) == Some(chain[i + 1])
    ensures Parent(chain[|chain| - 1]).None?
  {
    var ancestors := new Ancestors(path);
    chain := [];
    while true
      invariant ancestors.next.Some? ==> |chain| + |ancestors.next.value| <= |path|
      invariant |chain| <= |path| + 1 && (chain == [] ==> ancestors.next.Some?)
      invariant if chain == [] then ancestors.next == Some(path)
                else chain[0] == path && ancestors.next == Parent(chain[|chain| - 1])
      invariant forall i :: 0 <= i < |chain| - 1 ==> Parent(chain[i]) == Some(chain[i + 1])
      decreases if ancestors.next.Some? then 1 + |ancestors.next.value| else 0
    {
      var cur := ancestors.Next();
      if cur.None? {
        return;
      }
      chain := chain + [cur.value];
    }
  }
}
