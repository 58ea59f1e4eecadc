/** Lexical path normalisation and the location key built on it. */
module PathNormal {

  /** A path component. Prefixes occur only on Windows. */
  datatype Component = Prefix(drive: string) | RootDir | CurDir | ParentDir | Normal(name: string)

  type Path = seq<Component>

  /** A directory, as the names that lead to it from the root. */
  type Dir = seq<string>

  /** What the components of a Unix path look like. */
  ghost predicate UnixPath(p: Path) {
    && (forall c | c in p :: !c.Prefix?)
    && (forall i | 1 <= i < |p| :: p[i] != RootDir)
  }

  // ---------------------------------------------------------------------
  // Meaning
  // ---------------------------------------------------------------------

  /** Following one component; the parent of the root is the root. */
  function Follow(c: Component, at: Dir): Dir {
    match c
    case RootDir => []
    case ParentDir => if at == [] then [] else at[..|at| - 1]
    case Normal(name) => at + [name]
    case _ => at
  }

  /** The directory that a path denotes from a current directory. */
  function Denotes(p: Path, cwd: Dir): Dir {
    if p == [] then cwd else Follow(p[|p| - 1], Denotes(p[..|p| - 1], cwd))
  }

  /** The two paths denote the same place from every current directory. */
  ghost predicate SamePlace(p: Path, q: Path) {
    forall cwd :: Denotes(p, cwd) == Denotes(q, cwd)
  }

  lemma DenotesSnoc(p: Path, c: Component, cwd: Dir)
    ensures Denotes(p + [c], cwd) == Follow(c, Denotes(p, cwd))
  {
    assert (p + [c])[..|p|] == p;
  }

  // ---------------------------------------------------------------------
  // Normal forms
  // ---------------------------------------------------------------------

  function Names(names: seq<string>): (p: Path)
    ensures |p| == |names| && forall i | 0 <= i < |p| :: p[i] == Normal(names[i])
  {
    seq(|names|, i requires 0 <= i < |names| => Normal(names[i]))
  }

  function Ups(k: nat): (p: Path)
    ensures |p| == k && forall i | 0 <= i < k :: p[i] == ParentDir
  {
    seq(k, _ => ParentDir)
  }

  function Absolute(names: seq<string>): Path {
    [RootDir] + Names(names)
  }

  function Relative(ups: nat, names: seq<string>): Path {
    Ups(ups) + Names(names)
  }

  ghost predicate IsAbsolute(p: Path) {
    exists names: seq<string> :: p == Absolute(names)
  }

  ghost predicate IsRelative(p: Path) {
    exists ups: nat, names: seq<string> :: p == Relative(ups, names)
  }

  /** The root and names, or leading `..`s and names, or `.` alone. */
  ghost predicate NormalForm(p: Path) {
    IsAbsolute(p) || (IsRelative(p) && p != []) || p == [CurDir]
  }

  lemma {:induction false} DenotesNames(p: Path, names: seq<string>, cwd: Dir)
    ensures Denotes(p + Names(names), cwd) == Denotes(p, cwd) + names
  {
    if names == [] {
      assert p + Names(names) == p;
    } else {
      var init := names[..|names| - 1];
      assert p + Names(names) == p + Names(init) + [Normal(names[|names| - 1])];
      DenotesNames(p, init, cwd);
      DenotesSnoc(p + Names(init), Normal(names[|names| - 1]), cwd);
    }
  }

  lemma {:induction false} DenotesUps(k: nat, cwd: Dir)
    ensures Denotes(Ups(k), cwd) == if k <= |cwd| then cwd[..|cwd| - k] else []
  {
    if k > 0 {
      assert Ups(k) == Ups(k - 1) + [ParentDir];
      DenotesUps(k - 1, cwd);
      DenotesSnoc(Ups(k - 1), ParentDir, cwd);
    }
  }

  lemma DenotesAbsolute(names: seq<string>, cwd: Dir)
    ensures Denotes(Absolute(names), cwd) == names
  {
    DenotesNames([RootDir], names, cwd);
    assert [RootDir][..0] == [];
  }

  lemma DenotesRelative(ups: nat, names: seq<string>, cwd: Dir)
    ensures Denotes(Relative(ups, names), cwd) == (if ups <= |cwd| then cwd[..|cwd| - ups] else []) + names
  {
    DenotesNames(Ups(ups), names, cwd);
    DenotesUps(ups, cwd);
  }

  // ---------------------------------------------------------------------
  // Normal forms are unique
  // ---------------------------------------------------------------------

  /** A directory of the given depth. */
  function Deep(k: nat): (d: Dir)
    ensures |d| == k
  {
    seq(k, _ => "d")
  }

  lemma AbsoluteUnique(m: seq<string>, n: seq<string>)
    requires SamePlace(Absolute(m), Absolute(n))
    ensures m == n
  {
    assert Denotes(Absolute(m), []) == Denotes(Absolute(n), []);
    DenotesAbsolute(m, []);
    DenotesAbsolute(n, []);
  }

  lemma RelativeFromRoot(ups: nat, names: seq<string>)
    ensures Denotes(Relative(ups, names), []) == names
  {
    DenotesRelative(ups, names, []);
    var root: Dir := [];
    assert root[..0] + names == names && root + names == names;
  }

  /** From deep enough, the leading `..`s show in the depth. */
  lemma RelativeDepth(ups: nat, names: seq<string>, k: nat)
    requires ups <= k
    ensures |Denotes(Relative(ups, names), Deep(k))| == k - ups + |names|
  {
    DenotesRelative(ups, names, Deep(k));
  }

  lemma RelativeUnique(j: nat, m: seq<string>, k: nat, n: seq<string>)
    requires SamePlace(Relative(j, m), Relative(k, n))
    ensures j == k && m == n
  {
    hide Denotes, Relative;
    RelativeFromRoot(j, m);
    RelativeFromRoot(k, n);
    RelativeDepth(j, m, j + k);
    RelativeDepth(k, n, j + k);
    assert Denotes(Relative(j, m), []) == Denotes(Relative(k, n), []);
    assert Denotes(Relative(j, m), Deep(j + k)) == Denotes(Relative(k, n), Deep(j + k));
  }

  lemma AbsoluteIsNotRelative(m: seq<string>, k: nat, n: seq<string>)
    ensures !SamePlace(Absolute(m), Relative(k, n))
  {
    hide Denotes, Relative, Absolute;
    DenotesAbsolute(m, []);
    RelativeFromRoot(k, n);
    DenotesAbsolute(m, Deep(k + 1));
    RelativeDepth(k, n, k + 1);
    if Denotes(Absolute(m), []) == Denotes(Relative(k, n), []) {
      assert Denotes(Absolute(m), Deep(k + 1)) != Denotes(Relative(k, n), Deep(k + 1));
    }
  }

  /** `.` means the same as no path at all. */
  lemma CurDirIsRelative()
    ensures SamePlace([CurDir], Relative(0, []))
  {
    forall cwd
      ensures Denotes([CurDir], cwd) == Denotes(Relative(0, []), cwd)
    {
      DenotesRelative(0, [], cwd);
      assert [CurDir][..0] == [];
    }
  }

  /** A path that means the same as a normal form, with `.` spelled as the empty path. */
  ghost predicate Shape(p: Path, q: Path) {
    && SamePlace(p, q)
    && (IsAbsolute(q) || IsRelative(q))
    && p == if q == [] then [CurDir] else q
  }

  lemma NormalFormShape(p: Path) returns (q: Path)
    requires NormalForm(p)
    ensures Shape(p, q)
  {
    if p == [CurDir] {
      q := Relative(0, []);
      CurDirIsRelative();
    } else {
      q := p;
      if IsAbsolute(p) {
        var names :| p == Absolute(names);
        assert p[0] == RootDir;
      }
    }
  }

  /** Two normal forms that denote the same place are equal. */
  lemma NormalFormUnique(p: Path, q: Path)
    requires NormalForm(p) && NormalForm(q) && SamePlace(p, q)
    ensures p == q
  {
    hide Denotes, NormalForm;
    var p' := NormalFormShape(p);
    var q' := NormalFormShape(q);
    assert SamePlace(p', q') && SamePlace(q', p');
    if IsAbsolute(p') {
      var m :| p' == Absolute(m);
      if IsAbsolute(q') {
        var n :| q' == Absolute(n);
        AbsoluteUnique(m, n);
      } else {
        var k: nat, n: seq<string> :| q' == Relative(k, n);
        AbsoluteIsNotRelative(m, k, n);
      }
    } else {
      var j: nat, m: seq<string> :| p' == Relative(j, m);
      if IsAbsolute(q') {
        var n :| q' == Absolute(n);
        AbsoluteIsNotRelative(n, j, m);
      } else {
        var k: nat, n: seq<string> :| q' == Relative(k, n);
        RelativeUnique(j, m, k, n);
      }
    }
  }

  /** `r` is the normal form of `p`. */
  ghost predicate IsNormalOf(r: Path, p: Path) {
    NormalForm(r) && SamePlace(r, p)
  }

  /** Normalisation is idempotent: a normal form is its own normal form, and the only one. */
  lemma NormalFormFixed(p: Path, r: Path)
    requires NormalForm(p)
    ensures IsNormalOf(r, p) <==> r == p
  {
    if IsNormalOf(r, p) {
      NormalFormUnique(r, p);
    }
  }

  /** Normal forms decide lexical equality. */
  lemma NormalFormsDecide(p: Path, r: Path, q: Path, s: Path)
    requires IsNormalOf(r, p) && IsNormalOf(s, q)
    ensures r == s <==> SamePlace(p, q)
  {
    hide Denotes, NormalForm;
    if r == s {
      forall cwd
        ensures Denotes(p, cwd) == Denotes(q, cwd)
      {
        assert Denotes(r, cwd) == Denotes(p, cwd) && Denotes(s, cwd) == Denotes(q, cwd);
      }
    }
    if SamePlace(p, q) {
      forall cwd
        ensures Denotes(r, cwd) == Denotes(s, cwd)
      {
        assert Denotes(r, cwd) == Denotes(p, cwd) && Denotes(s, cwd) == Denotes(q, cwd);
      }
      NormalFormUnique(r, s);
    }
  }

  // ---------------------------------------------------------------------
  // The stack machine
  // ---------------------------------------------------------------------

  ghost predicate Stacked(stack: Path) {
    IsAbsolute(stack) || IsRelative(stack)
  }

  lemma StackDenotesPush(stack: Path, c: Component, p: Path)
    requires SamePlace(stack, p)
    ensures SamePlace(stack + [c], p + [c])
  {
    forall cwd
      ensures Denotes(stack + [c], cwd) == Denotes(p + [c], cwd)
    {
      DenotesSnoc(stack, c, cwd);
      DenotesSnoc(p, c, cwd);
      assert Denotes(stack, cwd) == Denotes(p, cwd);
    }
  }

  lemma StackedName(stack: Path, name: string)
    requires Stacked(stack)
    ensures Stacked(stack + [Normal(name)])
  {
    if IsAbsolute(stack) {
      var names :| stack == Absolute(names);
      assert stack + [Normal(name)] == Absolute(names + [name]);
    } else {
      var ups: nat, names: seq<string> :| stack == Relative(ups, names);
      assert stack + [Normal(name)] == Relative(ups, names + [name]);
    }
  }

  lemma TopOfRelative(ups: nat, names: seq<string>)
    ensures names != [] ==> Relative(ups, names)[ups + |names| - 1] == Normal(names[|names| - 1])
  {
  }

  lemma StackedUp(stack: Path)
    requires Stacked(stack) && (stack == [] || stack[|stack| - 1] == ParentDir)
    ensures Stacked(stack + [ParentDir])
  {
    assert !IsAbsolute(stack) by {
      forall names
        ensures stack != Absolute(names)
      {
        var a := Absolute(names);
        assert a[|a| - 1] == if names == [] then RootDir else Normal(names[|names| - 1]);
      }
    }
    var ups: nat, names: seq<string> :| stack == Relative(ups, names);
    TopOfRelative(ups, names);
    assert stack + [ParentDir] == Relative(ups + 1, []);
  }

  /** A component that is pushed keeps the stack in shape and in step with the path. */
  lemma PushKeeps(stack: Path, c: Component, p: Path)
    requires Stacked(stack) && SamePlace(stack, p)
    requires c.Normal? || (c == RootDir && stack == []) ||
             (c == ParentDir && (stack == [] || stack[|stack| - 1] == ParentDir))
    ensures Stacked(stack + [c]) && SamePlace(stack + [c], p + [c])
  {
    StackDenotesPush(stack, c, p);
    match c {
      case Normal(name) => StackedName(stack, name);
      case RootDir => assert stack + [c] == Absolute([]);
      case _ => StackedUp(stack);
    }
  }

  /** A `.`, or a `..` at the root, can be dropped. */
  lemma DropKeeps(stack: Path, c: Component, p: Path)
    requires Stacked(stack) && SamePlace(stack, p)
    requires c == CurDir || (c == ParentDir && stack != [] && stack[|stack| - 1] == RootDir)
    ensures SamePlace(stack, p + [c])
  {
    forall cwd
      ensures Denotes(stack, cwd) == Denotes(p + [c], cwd)
    {
      DenotesSnoc(p, c, cwd);
      assert Denotes(stack, cwd) == Denotes(p, cwd);
      if c == ParentDir {
        RootOnTop(stack);
        DenotesAbsolute([], cwd);
      }
    }
  }

  lemma RootOnTop(stack: Path)
    requires Stacked(stack) && stack != [] && stack[|stack| - 1] == RootDir
    ensures stack == Absolute([])
  {
    if IsAbsolute(stack) {
      var names :| stack == Absolute(names);
      assert names == [];
    }
  }

  lemma StackedPop(stack: Path)
    requires Stacked(stack) && stack != [] && stack[|stack| - 1].Normal?
    ensures Stacked(stack[..|stack| - 1])
  {
    var rest := stack[..|stack| - 1];
    if IsAbsolute(stack) {
      var names: seq<string> :| stack == Absolute(names);
      assert rest == Absolute(names[..|names| - 1]);
    } else {
      var ups: nat, names: seq<string> :| stack == Relative(ups, names);
      assert names != [];
      assert rest == Relative(ups, names[..|names| - 1]);
    }
  }

  /** A name and the `..` after it cancel out. */
  lemma PopKeeps(stack: Path, p: Path)
    requires Stacked(stack) && stack != [] && stack[|stack| - 1].Normal?
    requires SamePlace(stack, p)
    ensures Stacked(stack[..|stack| - 1])
    ensures SamePlace(stack[..|stack| - 1], p + [ParentDir])
  {
    hide Stacked;
    StackedPop(stack);
    var rest := stack[..|stack| - 1];
    forall cwd
      ensures Denotes(rest, cwd) == Denotes(p + [ParentDir], cwd)
    {
      DenotesSnoc(p, ParentDir, cwd);
      assert Denotes(stack, cwd) == Denotes(p, cwd);
    }
  }

  lemma EmptyStack()
    ensures Stacked([]) && SamePlace([], [])
  {
    assert [] == Relative(0, []);
  }

  /** A non-empty stack is the normal form; an empty one stands for `.`. */
  lemma StackIsNormal(stack: Path, p: Path)
    requires Stacked(stack) && SamePlace(stack, p)
    ensures IsNormalOf(if stack == [] then [CurDir] else stack, p)
  {
    if stack == [] {
      forall cwd
        ensures Denotes([CurDir], cwd) == Denotes(p, cwd)
      {
        DenotesSnoc([], CurDir, cwd);
        assert Denotes(stack, cwd) == Denotes(p, cwd);
      }
    }
  }

  /** Normalises a path with a stack of components. */
  method Normalize(p: Path) returns (norm: Path)
    ensures UnixPath(p) ==> IsNormalOf(norm, p)
    ensures CurDir in norm ==> norm == [CurDir]
  {
    hide Denotes, SamePlace, Stacked, IsNormalOf;
    var stack: Path := [];
    EmptyStack();
    for i := 0 to |p|
      invariant CurDir !in stack
      invariant i == 0 ==> stack == []
      invariant UnixPath(p) ==> Stacked(stack) && SamePlace(stack, p[..i])
    {
      var component := p[i];
      assert p[..i + 1] == p[..i] + [component];
      match component {
        case CurDir =>
          if UnixPath(p) {
            DropKeeps(stack, component, p[..i]);
          }
        case ParentDir =>
          if stack != [] {
            match stack[|stack| - 1] {
              case Prefix(_) =>
                if UnixPath(p) {
                  NoPrefixOnTop(stack);
                }
                stack := stack + [component];
              case RootDir =>
                if UnixPath(p) {
                  DropKeeps(stack, component, p[..i]);
                }
              case CurDir =>
                assert false;
              case ParentDir =>
                if UnixPath(p) {
                  PushKeeps(stack, component, p[..i]);
                }
                stack := stack + [component];
              case Normal(_) =>
                if UnixPath(p) {
                  PopKeeps(stack, p[..i]);
                }
                stack := stack[..|stack| - 1];
            }
          } else {
            if UnixPath(p) {
              PushKeeps(stack, component, p[..i]);
            }
            stack := stack + [component];
          }
        case Prefix(_) =>
          stack := stack + [component];
        case _ =>
          if UnixPath(p) {
            PushKeeps(stack, component, p[..i]);
          }
          stack := stack + [component];
      }
    }
    assert p[..|p|] == p;
    if UnixPath(p) {
      StackIsNormal(stack, p);
    }
    if stack == [] {
      return [CurDir];
    }
    return stack;
  }

  lemma NoPrefixOnTop(stack: Path)
    requires Stacked(stack) && stack != []
    ensures !stack[|stack| - 1].Prefix?
  {
  }

  // ---------------------------------------------------------------------
  // Location keys
  // ---------------------------------------------------------------------

  /** A source location, keyed by its normalised path. */
  datatype LineInfo = LineInfo(path: Path, line: nat)

  method NewLineInfo(path: Path, line: nat) returns (info: LineInfo)
    ensures info.line == line
    ensures UnixPath(path) ==> IsNormalOf(info.path, path)
  {
    var norm := Normalize(path);
    return LineInfo(norm, line);
  }

  /** Keys match exactly when they name the same line of the same place. */
  lemma LineInfosMatchIffSamePlace(a: LineInfo, p: Path, m: nat, b: LineInfo, q: Path, n: nat)
    requires IsNormalOf(a.path, p) && a.line == m
    requires IsNormalOf(b.path, q) && b.line == n
    ensures a == b <==> SamePlace(p, q) && m == n
  {
    NormalFormsDecide(p, a.path, q, b.path);
  }
}
