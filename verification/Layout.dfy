/** Weak path resolution over an abstract filesystem.

    `resolve_absolute_weak` follows every symbolic link, keeps missing components, and gives up
    past forty nested links. It is compared with the textbook resolver that keeps one work list
    of components. */
module Layout {
  import opened Wrappers

  /** What `components` yields as an ordinary component: one name, neither `.` nor `..`. */
  type Name = s: string | IsName(s) witness "a"

  predicate IsName(s: string) { s != "" && s != "." && s != ".." && '/' !in s }

  /** An absolute path: the names below the root. */
  type Path = seq<Name>

  datatype Component = CurDir | ParentDir | Normal(name: Name)

  datatype Target = Target(absolute: bool, components: seq<Component>)

  /** What `symlink_metadata` and `read_link` answer for one path. */
  datatype Node =
    | Missing           // not found, or below something that is not a directory
    | Present           // anything that is not a symbolic link
    | Link(target: Target)
    | UnreadableLink    // a symbolic link whose target cannot be read
    | Inaccessible      // any other error

  type FileSystem = Path -> Node

  datatype Error = SymlinkLoop | ResolvePath(path: Path)

  const MAX_SYMLINK_DEPTH: nat := 40

  function Parent(path: Path): Path {
    if path == [] then [] else path[..|path| - 1]
  }

  function AsComponents(path: Path): seq<Component> {
    seq(|path|, i requires 0 <= i < |path| => Normal(path[i]))
  }

  /** The absolute form of a link's target as read from the directory `at`. */
  function Joined(at: Path, target: Target): seq<Component> {
    if target.absolute then target.components else AsComponents(at) + target.components
  }

  /** The loop of `resolve_absolute_weak`, from the components still to be visited. */
  function Resolve(fs: FileSystem, resolved: Path, components: seq<Component>, depth: nat): Result<Path, Error>
    decreases MAX_SYMLINK_DEPTH + 1 - depth, |components|
  {
    if depth > MAX_SYMLINK_DEPTH then Err(SymlinkLoop)
    else if components == [] then Ok(resolved)
    else
      var rest := components[1..];
      match components[0]
      case CurDir => Resolve(fs, resolved, rest, depth)
      case ParentDir => Resolve(fs, Parent(resolved), rest, depth)
      case Normal(name) =>
        var candidate := resolved + [name];
        (match fs(candidate)
         case Missing => Resolve(fs, candidate, rest, depth)
         case Present => Resolve(fs, candidate, rest, depth)
         case UnreadableLink => Err(ResolvePath(candidate))
         case Inaccessible => Err(ResolvePath(candidate))
         case Link(target) =>
           (match Resolve(fs, [], Joined(resolved, target), depth + 1)
            case Err(e) => Err(e)
            case Ok(path) => Resolve(fs, path, rest, depth)))
  }

  /** `resolve_absolute_weak`, with the loop and the recursion of the source. */
  method ResolveAbsoluteWeak(fs: FileSystem, absolute: seq<Component>, depth: nat) returns (r: Result<Path, Error>)
    ensures r == Resolve(fs, [], absolute, depth)
    decreases MAX_SYMLINK_DEPTH + 1 - depth
  {
    if depth > MAX_SYMLINK_DEPTH {
      return Err(SymlinkLoop);
    }
    var resolved: Path := [];
    for i := 0 to |absolute|
      invariant Resolve(fs, [], absolute, depth) == Resolve(fs, resolved, absolute[i..], depth)
    {
      assert absolute[i..][1..] == absolute[i + 1..];
      match absolute[i]
      case CurDir =>
      case ParentDir => resolved := Parent(resolved);
      case Normal(name) =>
        var candidate := resolved + [name];
        match fs(candidate)
        case Missing => resolved := candidate;
        case Present => resolved := candidate;
        case UnreadableLink => return Err(ResolvePath(candidate));
        case Inaccessible => return Err(ResolvePath(candidate));
        case Link(target) =>
          var inner := ResolveAbsoluteWeak(fs, Joined(resolved, target), depth + 1);
          if inner.Err? {
            return inner;
          }
          resolved := inner.value;
    }
    r := Ok(resolved);
  }

  // ----- what a result is ------------------------------------------------------------------------

  /** No directory on the way, nor the path itself, is a link or unreadable. */
  predicate LinkFree(fs: FileSystem, path: Path) {
    forall i :: 0 < i <= |path| ==> fs(path[..i]).Missing? || fs(path[..i]).Present?
  }

  lemma LinkFreePush(fs: FileSystem, path: Path, name: Name)
    requires LinkFree(fs, path) && (fs(path + [name]).Missing? || fs(path + [name]).Present?)
    ensures LinkFree(fs, path + [name])
  {
    var longer := path + [name];
    forall i | 0 < i <= |longer| ensures fs(longer[..i]).Missing? || fs(longer[..i]).Present? {
      if i == |longer| {
        assert longer[..i] == longer;
      } else {
        assert longer[..i] == path[..i];
      }
    }
  }

  lemma LinkFreeParent(fs: FileSystem, path: Path)
    requires LinkFree(fs, path)
    ensures LinkFree(fs, Parent(path))
  {
    var p := Parent(path);
    assert forall i :: 0 < i <= |p| ==> p[..i] == path[..i];
  }

  /** No prefix of a resolved path is a symbolic link. */
  lemma {:induction false} ResultIsLinkFree(fs: FileSystem, resolved: Path, components: seq<Component>, depth: nat)
    requires LinkFree(fs, resolved)
    ensures var r := Resolve(fs, resolved, components, depth); r.Ok? ==> LinkFree(fs, r.value)
    decreases MAX_SYMLINK_DEPTH + 1 - depth, |components|
  {
    if depth <= MAX_SYMLINK_DEPTH && components != [] {
      var rest := components[1..];
      match components[0]
      case CurDir => ResultIsLinkFree(fs, resolved, rest, depth);
      case ParentDir =>
        LinkFreeParent(fs, resolved);
        ResultIsLinkFree(fs, Parent(resolved), rest, depth);
      case Normal(name) =>
        var candidate := resolved + [name];
        match fs(candidate) {
          case Link(target) =>
            var inner := Resolve(fs, [], Joined(resolved, target), depth + 1);
            ResultIsLinkFree(fs, [], Joined(resolved, target), depth + 1);
            if inner.Ok? {
              ResultIsLinkFree(fs, inner.value, rest, depth);
            }
          case UnreadableLink =>
          case Inaccessible =>
          case _ =>
            LinkFreePush(fs, resolved, name);
            ResultIsLinkFree(fs, candidate, rest, depth);
        }
    }
  }

  lemma {:induction false} LinkFreeWalk(fs: FileSystem, done: Path, todo: Path, rest: seq<Component>, depth: nat)
    requires depth <= MAX_SYMLINK_DEPTH && LinkFree(fs, done + todo)
    ensures Resolve(fs, done, AsComponents(todo) + rest, depth) == Resolve(fs, done + todo, rest, depth)
    decreases |todo|
  {
    var all := AsComponents(todo) + rest;
    if todo == [] {
      assert all == rest && done + todo == done;
    } else {
      var next := done + [todo[0]];
      assert next + todo[1..] == done + todo;
      assert (done + todo)[..|next|] == next;
      assert all[1..] == AsComponents(todo[1..]) + rest;
      assert all[0] == Normal(todo[0]);
      LinkFreeWalk(fs, next, todo[1..], rest, depth);
    }
  }

  /** Resolving a resolved path again returns it unchanged. */
  lemma ResolutionIsIdempotent(fs: FileSystem, absolute: seq<Component>, depth: nat)
    requires Resolve(fs, [], absolute, depth).Ok?
    ensures var path := Resolve(fs, [], absolute, depth).value;
      Resolve(fs, [], AsComponents(path), 0) == Ok(path)
  {
    ResultIsLinkFree(fs, [], absolute, depth);
    var path := Resolve(fs, [], absolute, depth).value;
    assert [] + path == path && AsComponents(path) + [] == AsComponents(path);
    LinkFreeWalk(fs, [], path, [], 0);
  }

  // ----- what each component means ----------------------------------------------------------------

  /** A name followed by `..` leads back to where it started, if nothing on the way is a link. */
  lemma DotDotUndoesName(fs: FileSystem, at: Path, name: Name, rest: seq<Component>, depth: nat)
    requires depth <= MAX_SYMLINK_DEPTH && LinkFree(fs, at + [name])
    ensures Resolve(fs, at, [Normal(name), ParentDir] + rest, depth) == Resolve(fs, at, rest, depth)
  {
    var longer := at + [name];
    var all := [Normal(name), ParentDir] + rest;
    assert longer[..|longer|] == longer;
    assert all[1..] == [ParentDir] + rest && ([ParentDir] + rest)[1..] == rest;
    assert longer[..|longer| - 1] == at;
  }

  /** The root is its own parent. */
  lemma DotDotStaysAtRoot(fs: FileSystem, rest: seq<Component>, depth: nat)
    requires depth <= MAX_SYMLINK_DEPTH
    ensures Resolve(fs, [], [ParentDir] + rest, depth) == Resolve(fs, [], rest, depth)
  {
    assert ([ParentDir] + rest)[1..] == rest;
  }

  lemma DotChangesNothing(fs: FileSystem, at: Path, rest: seq<Component>, depth: nat)
    requires depth <= MAX_SYMLINK_DEPTH
    ensures Resolve(fs, at, [CurDir] + rest, depth) == Resolve(fs, at, rest, depth)
  {
    assert ([CurDir] + rest)[1..] == rest;
  }

  /** A name that is no link is kept, whether it exists or not. */
  lemma NameIsKept(fs: FileSystem, at: Path, name: Name, rest: seq<Component>, depth: nat)
    requires depth <= MAX_SYMLINK_DEPTH && (fs(at + [name]).Missing? || fs(at + [name]).Present?)
    ensures Resolve(fs, at, [Normal(name)] + rest, depth) == Resolve(fs, at + [name], rest, depth)
  {
    assert ([Normal(name)] + rest)[1..] == rest;
  }

  /** A link stands for its target, walked from the root or from the link's own directory; what
      remains is then walked from where the target led. */
  lemma LinkStandsForTarget(fs: FileSystem, at: Path, name: Name, absolute: bool, target: seq<Component>,
                            rest: seq<Component>, depth: nat)
    requires depth < MAX_SYMLINK_DEPTH && LinkFree(fs, at) && fs(at + [name]) == Link(Target(absolute, target))
    ensures var there := Resolve(fs, if absolute then [] else at, target, depth + 1);
      Resolve(fs, at, [Normal(name)] + rest, depth)
      == if there.Ok? then Resolve(fs, there.value, rest, depth) else there
  {
    assert ([Normal(name)] + rest)[1..] == rest;
    if !absolute {
      assert [] + at == at;
      LinkFreeWalk(fs, [], at, target, depth + 1);
    }
  }

  lemma UnreadableIsReported(fs: FileSystem, at: Path, name: Name, rest: seq<Component>, depth: nat)
    requires depth <= MAX_SYMLINK_DEPTH && (fs(at + [name]).UnreadableLink? || fs(at + [name]).Inaccessible?)
    ensures Resolve(fs, at, [Normal(name)] + rest, depth) == Err(ResolvePath(at + [name]))
  {
    assert ([Normal(name)] + rest)[0] == Normal(name);
  }

  /** The names of a chain: `a`, `aa`, `aaa` and so on. */
  function ChainName(i: nat): (r: Name)
    ensures |r| == i + 1
  {
    var name := seq(i + 1, _ => 'a');
    assert name[0] == 'a';
    name
  }

  /** `length` links in the root, each to the next, the last to something that is no link. */
  function Chain(length: nat): FileSystem {
    (path: Path) =>
      if |path| == 1 && |path[0]| <= length && path[0] == ChainName(|path[0]| - 1) then
        Link(Target(false, [Normal(ChainName(|path[0]|))]))
      else Present
  }

  lemma {:induction false} ChainFrom(length: nat, i: nat)
    requires i <= length
    ensures Resolve(Chain(length), [], [Normal(ChainName(i))], i)
         == if length <= 40 then Ok([ChainName(length)]) else Err(SymlinkLoop)
    decreases length - i
  {
    var fs, name := Chain(length), ChainName(i);
    assert [Normal(name)][1..] == [] && [] + [name] == [name];
    if i < length {
      assert fs([name]) == Link(Target(false, [Normal(ChainName(i + 1))]));
      assert AsComponents([]) + [Normal(ChainName(i + 1))] == [Normal(ChainName(i + 1))];
      ChainFrom(length, i + 1);
    }
  }

  /** A chain of links resolves exactly when it has at most forty. */
  lemma ChainResolvesUpToForty(length: nat)
    ensures Resolve(Chain(length), [], [Normal(ChainName(0))], 0)
         == if length <= 40 then Ok([ChainName(length)]) else Err(SymlinkLoop)
  {
    ChainFrom(length, 0);
  }

  // ----- agreement with the work-list resolver ------------------------------------------------------

  /** The directory a link's target is read from. */
  function Origin(at: Path, target: Target): Path { if target.absolute then [] else at }

  /** The textbook resolver: a link's target is pushed in front of the remaining components.
      `fuel` bounds its steps; `None` means the fuel ran out. */
  function Walk(fs: FileSystem, at: Path, components: seq<Component>, fuel: nat): Option<Result<Path, Error>>
    decreases fuel
  {
    if components == [] then Some(Ok(at))
    else if fuel == 0 then None
    else
      var rest := components[1..];
      match components[0]
      case CurDir => Walk(fs, at, rest, fuel - 1)
      case ParentDir => Walk(fs, Parent(at), rest, fuel - 1)
      case Normal(name) =>
        var candidate := at + [name];
        (match fs(candidate)
         case Missing => Walk(fs, candidate, rest, fuel - 1)
         case Present => Walk(fs, candidate, rest, fuel - 1)
         case UnreadableLink => Some(Err(ResolvePath(candidate)))
         case Inaccessible => Some(Err(ResolvePath(candidate)))
         case Link(target) =>
           Walk(fs, Origin(at, target), target.components + rest, fuel - 1))
  }

  /** More fuel never changes an answer. */
  lemma {:induction false} WalkIsStable(fs: FileSystem, at: Path, components: seq<Component>, fuel: nat, more: nat)
    requires fuel <= more && Walk(fs, at, components, fuel).Some?
    ensures Walk(fs, at, components, more) == Walk(fs, at, components, fuel)
    decreases fuel
  {
    if components != [] {
      var rest := components[1..];
      match components[0]
      case CurDir => WalkIsStable(fs, at, rest, fuel - 1, more - 1);
      case ParentDir => WalkIsStable(fs, Parent(at), rest, fuel - 1, more - 1);
      case Normal(name) =>
        match fs(at + [name]) {
          case Link(target) =>
            WalkIsStable(fs, Origin(at, target), target.components + rest, fuel - 1, more - 1);
          case Missing => WalkIsStable(fs, at + [name], rest, fuel - 1, more - 1);
          case Present => WalkIsStable(fs, at + [name], rest, fuel - 1, more - 1);
          case _ =>
        }
    }
  }

  /** Walking on from a first answer. */
  function Continued(fs: FileSystem, r: Result<Path, Error>, rest: seq<Component>, g: nat): Option<Result<Path,
                     Error>> {
    if r.Ok? then Walk(fs, r.value, rest, g) else Some(r)
  }

  /** Walking a list and then another is walking their concatenation. */
  lemma {:induction false} WalkThen(fs: FileSystem, at: Path, first: seq<Component>, f: nat, rest: seq<Component>,
      g: nat)
    requires Walk(fs, at, first, f).Some? && Continued(fs, Walk(fs, at, first, f).value, rest, g).Some?
    ensures Walk(fs, at, first + rest, f + g) == Continued(fs, Walk(fs, at, first, f).value, rest, g)
    decreases f
  {
    var all := first + rest;
    if first == [] {
      assert all == rest;
      WalkIsStable(fs, at, rest, g, f + g);
    } else {
      var tail := first[1..];
      assert all[0] == first[0] && all[1..] == tail + rest;
      match first[0]
      case CurDir => WalkThen(fs, at, tail, f - 1, rest, g);
      case ParentDir => WalkThen(fs, Parent(at), tail, f - 1, rest, g);
      case Normal(name) =>
        match fs(at + [name]) {
          case Link(target) =>
            hide Continued;
            assert target.components + (tail + rest) == (target.components + tail) + rest;
            WalkThen(fs, Origin(at, target), target.components + tail, f - 1, rest, g);
          case Missing => WalkThen(fs, at + [name], tail, f - 1, rest, g);
          case Present => WalkThen(fs, at + [name], tail, f - 1, rest, g);
          case _ =>
        }
    }
  }

  lemma WalkNames(fs: FileSystem, at: Path, components: seq<Component>, name: Name, fuel: nat)
    requires components != [] && components[0] == Normal(name) && Walk(fs, at, components, fuel).Some?
    requires fs(at + [name]).Missing? || fs(at + [name]).Present?
    ensures fuel > 0 && Walk(fs, at, components, fuel) == Walk(fs, at + [name], components[1..], fuel - 1)
  {
  }

  lemma {:induction false} WalkSkipsLinkFree(fs: FileSystem, done: Path, todo: Path, rest: seq<Component>, fuel: nat)
    requires LinkFree(fs, done + todo) && Walk(fs, done, AsComponents(todo) + rest, fuel).Some?
    ensures Walk(fs, done + todo, rest, fuel) == Walk(fs, done, AsComponents(todo) + rest, fuel)
    decreases |todo|
  {
    var all := AsComponents(todo) + rest;
    if todo == [] {
      assert all == rest && done + todo == done;
    } else {
      var next := done + [todo[0]];
      assert next + todo[1..] == done + todo;
      assert (done + todo)[..|next|] == next;
      assert all[1..] == AsComponents(todo[1..]) + rest;
      assert all[0] == Normal(todo[0]);
      hide Walk;
      WalkNames(fs, done, all, todo[0], fuel);
      hide LinkFree;
      WalkSkipsLinkFree(fs, next, todo[1..], rest, fuel - 1);
      WalkIsStable(fs, done + todo, rest, fuel - 1, fuel);
    }
  }

  lemma LinkIsWalked(fs: FileSystem, at: Path, components: seq<Component>, name: Name, target: Target, f: nat, g: nat)
    requires LinkFree(fs, at) && components != [] && components[0] == Normal(name) && fs(at + [name]) == Link(target)
    requires Walk(fs, [], Joined(at, target), f).Some?
    requires var inner := Walk(fs, [], Joined(at, target), f).value;
      inner.Ok? ==> Walk(fs, inner.value, components[1..], g).Some?
    ensures var inner := Walk(fs, [], Joined(at, target), f).value;
      Walk(fs, at, components, f + g + 1)
      == if inner.Ok? then Walk(fs, inner.value, components[1..], g) else Some(inner)
  {
    if !target.absolute {
      assert [] + at == at;
      WalkSkipsLinkFree(fs, [], at, target.components, f);
    }
    WalkThen(fs, Origin(at, target), target.components, f, components[1..], g);
  }

  /** Where a component that is no link leads. */
  predicate LeadsTo(fs: FileSystem, at: Path, component: Component, next: Path) {
    match component
    case CurDir => next == at
    case ParentDir => next == Parent(at)
    case Normal(name) => next == at + [name] && (fs(next).Missing? || fs(next).Present?)
  }

  lemma StepIsWalked(fs: FileSystem, at: Path, components: seq<Component>, next: Path, fuel: nat)
    requires components != [] && LeadsTo(fs, at, components[0], next)
    ensures Walk(fs, at, components, fuel + 1) == Walk(fs, next, components[1..], fuel)
  {
  }

  lemma EndIsWalked(fs: FileSystem, at: Path, components: seq<Component>)
    requires components == [] || (components[0].Normal? && Unusable(fs(at + [components[0].name])))
    ensures Walk(fs, at, components, 1)
         == Some(if components == [] then Ok(at) else Err(ResolvePath(at + [components[0].name])))
  {
  }

  predicate Unusable(node: Node) { node.UnreadableLink? || node.Inaccessible? }

  /** Whatever the nested resolver answers, other than giving up, the work list answers too. */
  lemma {:induction false} NestedIsWalked(fs: FileSystem, at: Path, components: seq<Component>, depth: nat)
    returns (fuel: nat)
    requires LinkFree(fs, at) && Resolve(fs, at, components, depth) != Err(SymlinkLoop)
    ensures Walk(fs, at, components, fuel) == Some(Resolve(fs, at, components, depth))
    decreases MAX_SYMLINK_DEPTH + 1 - depth, |components|
  {
    hide Walk, LinkFree, Joined;
    if components == [] || (components[0].Normal? && Unusable(fs(at + [components[0].name]))) {
      EndIsWalked(fs, at, components);
      return 1;
    }
    var rest := components[1..];
    var next := at;
    match components[0] {
      case CurDir =>
      case ParentDir =>
        next := Parent(at);
        LinkFreeParent(fs, at);
      case Normal(name) =>
        match fs(at + [name]) {
          case Link(target) =>
            var inner := Resolve(fs, [], Joined(at, target), depth + 1);
            RootIsLinkFree(fs);
            var f := NestedIsWalked(fs, [], Joined(at, target), depth + 1);
            var g := 0;
            if inner.Ok? {
              ResultIsLinkFree(fs, [], Joined(at, target), depth + 1);
              g := NestedIsWalked(fs, inner.value, rest, depth);
            }
            LinkIsWalked(fs, at, components, name, target, f, g);
            return f + g + 1;
          case _ =>
            next := at + [name];
            LinkFreePush(fs, at, name);
        }
    }
    fuel := NestedIsWalked(fs, next, rest, depth);
    StepIsWalked(fs, at, components, next, fuel);
    fuel := fuel + 1;
  }

  lemma RootIsLinkFree(fs: FileSystem)
    ensures LinkFree(fs, [])
  {
  }

  /** The nested resolver refines the work-list resolver: whenever the work list answers, the
      nested one gives the same answer or reports too many links. */
  lemma NestedRefinesWalk(fs: FileSystem, absolute: seq<Component>, fuel: nat)
    requires Walk(fs, [], absolute, fuel).Some?
    ensures Resolve(fs, [], absolute, 0) in {Walk(fs, [], absolute, fuel).value, Err(SymlinkLoop)}
  {
    if Resolve(fs, [], absolute, 0) != Err(SymlinkLoop) {
      var enough := NestedIsWalked(fs, [], absolute, 0);
      if fuel <= enough {
        WalkIsStable(fs, [], absolute, fuel, enough);
      } else {
        WalkIsStable(fs, [], absolute, enough, fuel);
      }
    }
  }

  /** A resolution that never ends, such as a cycle of links, is reported as too many links. */
  lemma EndlessLinksAreReported(fs: FileSystem, absolute: seq<Component>)
    requires forall fuel: nat :: Walk(fs, [], absolute, fuel).None?
    ensures Resolve(fs, [], absolute, 0) == Err(SymlinkLoop)
  {
    if Resolve(fs, [], absolute, 0) != Err(SymlinkLoop) {
      var fuel := NestedIsWalked(fs, [], absolute, 0);
      assert false;
    }
  }

  // ----- exactly when there are too many links --------------------------------------------------------

  /** An entry of the work list: a component, or the end of a followed link's target. */
  datatype Entry = Visit(component: Component) | Close

  function Visits(components: seq<Component>): (r: seq<Entry>)
    ensures |r| == |components| && forall i :: 0 <= i < |r| ==> r[i] == Visit(components[i])
  {
    seq(|components|, i requires 0 <= i < |components| => Visit(components[i]))
  }

  /** Within `fuel` steps of the work list, more than forty links are open at once: followed, with
      the end of their target still ahead. */
  predicate NestsTooDeep(fs: FileSystem, at: Path, entries: seq<Entry>, open: nat, fuel: nat)
    decreases fuel
  {
    if open > MAX_SYMLINK_DEPTH then true
    else if entries == [] || fuel == 0 then false
    else
      var rest := entries[1..];
      match entries[0]
      case Close => NestsTooDeep(fs, at, rest, if open == 0 then 0 else open - 1, fuel - 1)
      case Visit(CurDir) => NestsTooDeep(fs, at, rest, open, fuel - 1)
      case Visit(ParentDir) => NestsTooDeep(fs, Parent(at), rest, open, fuel - 1)
      case Visit(Normal(name)) =>
        var candidate := at + [name];
        (match fs(candidate)
         case Missing => NestsTooDeep(fs, candidate, rest, open, fuel - 1)
         case Present => NestsTooDeep(fs, candidate, rest, open, fuel - 1)
         case UnreadableLink => false
         case Inaccessible => false
         case Link(target) =>
           NestsTooDeep(fs, Origin(at, target), Visits(target.components) + [Close] + rest, open + 1, fuel - 1))
  }

  /** What was too deep stays too deep with more fuel. */
  lemma {:induction false} DepthIsStable(fs: FileSystem, at: Path, entries: seq<Entry>, open: nat, fuel: nat, more: nat)
    requires fuel <= more && NestsTooDeep(fs, at, entries, open, fuel)
    ensures NestsTooDeep(fs, at, entries, open, more)
    decreases fuel
  {
    if open <= MAX_SYMLINK_DEPTH {
      var rest := entries[1..];
      match entries[0]
      case Close => DepthIsStable(fs, at, rest, if open == 0 then 0 else open - 1, fuel - 1, more - 1);
      case Visit(CurDir) => DepthIsStable(fs, at, rest, open, fuel - 1, more - 1);
      case Visit(ParentDir) => DepthIsStable(fs, Parent(at), rest, open, fuel - 1, more - 1);
      case Visit(Normal(name)) =>
        match fs(at + [name]) {
          case Link(target) =>
            var entries' := Visits(target.components) + [Close] + rest;
            DepthIsStable(fs, Origin(at, target), entries', open + 1, fuel - 1, more - 1);
          case Missing => DepthIsStable(fs, at + [name], rest, open, fuel - 1, more - 1);
          case Present => DepthIsStable(fs, at + [name], rest, open, fuel - 1, more - 1);
        }
    }
  }

  /** The nested resolver and the marked work list at the same place: giving up is nesting too
      deep, an answer passes on to `tail` after `n` steps, and another error ends both. */
  predicate Matches(fs: FileSystem, at: Path, entries: seq<Entry>, depth: nat, r: Result<Path, Error>,
                    tail: seq<Entry>, f: nat, n: nat) {
    match r
    case Err(SymlinkLoop) => NestsTooDeep(fs, at, entries, depth, n)
    case Err(ResolvePath(_)) => !NestsTooDeep(fs, at, entries, depth, f)
    case Ok(path) => NestsTooDeep(fs, at, entries, depth, n + f) == NestsTooDeep(fs, path, tail, depth, f)
  }

  /** One more step in front that goes to the same place. */
  lemma MatchesAfter(fs: FileSystem, at: Path, entries: seq<Entry>, at': Path, entries': seq<Entry>, depth: nat,
                     r: Result<Path, Error>, tail: seq<Entry>, f: nat, n: nat)
    requires Matches(fs, at', entries', depth, r, tail, f, n)
    requires forall fuel: nat ::
      NestsTooDeep(fs, at, entries, depth, fuel) == (fuel > 0 && NestsTooDeep(fs, at', entries', depth, fuel - 1))
    ensures Matches(fs, at, entries, depth, r, tail, f, n + 1)
  {
    if f > 0 && NestsTooDeep(fs, at', entries', depth, f - 1) {
      DepthIsStable(fs, at', entries', depth, f - 1, f);
    }
    assert NestsTooDeep(fs, at, entries, depth, n + 1) == NestsTooDeep(fs, at', entries', depth, n);
    assert NestsTooDeep(fs, at, entries, depth, n + 1 + f) == NestsTooDeep(fs, at', entries', depth, n + f);
  }

  /** Passing the end of a target closes its link. */
  lemma CloseStep(fs: FileSystem, at: Path, entries: seq<Entry>, depth: nat, k: nat)
    requires depth < MAX_SYMLINK_DEPTH
    ensures NestsTooDeep(fs, at, [Close] + entries, depth + 1, k + 1) == NestsTooDeep(fs, at, entries, depth, k)
  {
    assert ([Close] + entries)[1..] == entries;
  }

  /** Following a link opens it, with its end in front of what remains. */
  lemma LinkStep(fs: FileSystem, at: Path, name: Name, target: Target, entries: seq<Entry>, depth: nat, k: nat)
    requires depth <= MAX_SYMLINK_DEPTH && fs(at + [name]) == Link(target)
    ensures NestsTooDeep(fs, at, [Visit(Normal(name))] + entries, depth, k + 1)
         == NestsTooDeep(fs, Origin(at, target), Visits(target.components) + ([Close] + entries), depth + 1, k)
    ensures !NestsTooDeep(fs, at, [Visit(Normal(name))] + entries, depth, 0)
  {
    assert ([Visit(Normal(name))] + entries)[1..] == entries;
    assert Visits(target.components) + [Close] + entries == Visits(target.components) + ([Close] + entries);
  }

  /** The target read from its directory resolves as its absolute form does from the root. */
  lemma JoinedFromOrigin(fs: FileSystem, at: Path, target: Target, depth: nat)
    requires LinkFree(fs, at) && depth <= MAX_SYMLINK_DEPTH
    ensures Resolve(fs, [], Joined(at, target), depth) == Resolve(fs, Origin(at, target), target.components, depth)
  {
    if !target.absolute {
      assert [] + at == at;
      LinkFreeWalk(fs, [], at, target.components, depth);
    }
  }

  /** The component leads from `at` to `next` without a link. */
  predicate Leads(fs: FileSystem, at: Path, c: Component, next: Path) {
    match c
    case CurDir => next == at
    case ParentDir => next == Parent(at)
    case Normal(name) => next == at + [name] && (fs(next).Missing? || fs(next).Present?)
  }

  /** A component without a link is one step of the work list. */
  lemma PlainStep(fs: FileSystem, at: Path, c: Component, next: Path, entries: seq<Entry>, depth: nat)
    requires depth <= MAX_SYMLINK_DEPTH && Leads(fs, at, c, next)
    ensures forall fuel: nat ::
      NestsTooDeep(fs, at, [Visit(c)] + entries, depth, fuel)
      == (fuel > 0 && NestsTooDeep(fs, next, entries, depth, fuel - 1))
  {
    assert ([Visit(c)] + entries)[1..] == entries;
  }

  lemma PlainResolves(fs: FileSystem, at: Path, components: seq<Component>, next: Path, depth: nat)
    requires depth <= MAX_SYMLINK_DEPTH && LinkFree(fs, at) && components != [] && Leads(fs, at, components[0], next)
    ensures Resolve(fs, at, components, depth) == Resolve(fs, next, components[1..], depth)
    ensures LinkFree(fs, next)
  {
    if components[0].ParentDir? {
      LinkFreeParent(fs, at);
    } else if components[0].Normal? {
      LinkFreePush(fs, at, components[0].name);
    }
  }

  lemma NothingMatches(fs: FileSystem, at: Path, depth: nat, tail: seq<Entry>, f: nat)
    requires depth <= MAX_SYMLINK_DEPTH
    ensures Matches(fs, at, Visits([]) + tail, depth, Resolve(fs, at, [], depth), tail, f, 0)
  {
    assert Visits([]) + tail == tail;
  }

  lemma UnusableMatches(fs: FileSystem, at: Path, components: seq<Component>, depth: nat, tail: seq<Entry>, f: nat)
    requires depth <= MAX_SYMLINK_DEPTH && components != [] && components[0].Normal?
    requires Unusable(fs(at + [components[0].name]))
    ensures Matches(fs, at, Visits(components) + tail, depth, Resolve(fs, at, components, depth), tail, f, 0)
  {
  }

  lemma FirstVisit(components: seq<Component>, tail: seq<Entry>)
    requires components != []
    ensures Visits(components) + tail == [Visit(components[0])] + (Visits(components[1..]) + tail)
  {
  }

  lemma {:induction false} NestedMatches(fs: FileSystem, at: Path, components: seq<Component>, depth: nat,
                                         tail: seq<Entry>, f: nat) returns (n: nat)
    requires LinkFree(fs, at) && depth <= MAX_SYMLINK_DEPTH
    ensures Matches(fs, at, Visits(components) + tail, depth, Resolve(fs, at, components, depth), tail, f, n)
    decreases MAX_SYMLINK_DEPTH + 1 - depth, |components|, 1
  {
    hide Matches, NestsTooDeep, Resolve, Visits, LinkFree;
    if components == [] {
      NothingMatches(fs, at, depth, tail, f);
      return 0;
    }
    var c := components[0];
    FirstVisit(components, tail);
    if c.Normal? && fs(at + [c.name]).Link? {
      n := LinkMatches(fs, at, components, depth, tail, f);
    } else if c.Normal? && Unusable(fs(at + [c.name])) {
      UnusableMatches(fs, at, components, depth, tail, f);
      n := 0;
    } else {
      var next := match c case CurDir => at case ParentDir => Parent(at) case Normal(name) => at + [name];
      PlainResolves(fs, at, components, next, depth);
      var entries := Visits(components[1..]) + tail;
      n := NestedMatches(fs, next, components[1..], depth, tail, f);
      PlainStep(fs, at, c, next, entries, depth);
      MatchesAfter(fs, at, [Visit(c)] + entries, next, entries, depth, Resolve(fs, at, components, depth), tail, f, n);
      n := n + 1;
    }
  }

  lemma {:induction false} LinkMatches(fs: FileSystem, at: Path, components: seq<Component>, depth: nat,
                                       tail: seq<Entry>, f: nat) returns (n: nat)
    requires LinkFree(fs, at) && depth <= MAX_SYMLINK_DEPTH && components != []
    requires components[0].Normal? && fs(at + [components[0].name]).Link?
    ensures Matches(fs, at, [Visit(components[0])] + (Visits(components[1..]) + tail), depth,
                    Resolve(fs, at, components, depth), tail, f, n)
    decreases MAX_SYMLINK_DEPTH + 1 - depth, |components|, 0
  {
    hide NestsTooDeep, Matches, Visits;
    var name, rest := components[0].name, components[1..];
    var target := fs(at + [name]).target;
    var after := Visits(rest) + tail;
    var origin := Origin(at, target);
    if depth == MAX_SYMLINK_DEPTH {
      DeepestLink(fs, at, name, target, after, tail, f);
      return 1;
    }
    JoinedFromOrigin(fs, at, target, depth + 1);
    var inner := Resolve(fs, origin, target.components, depth + 1);
    OriginIsLinkFree(fs, at, target);
    if inner.Err? {
      n := NestedMatches(fs, origin, target.components, depth + 1, [Close] + after, f);
      FailedLink(fs, at, name, target, after, depth, inner, tail, f, n);
      n := n + 1;
    } else {
      ResultIsLinkFree(fs, origin, target.components, depth + 1);
      var m := NestedMatches(fs, inner.value, rest, depth, tail, f);
      var r := Resolve(fs, inner.value, rest, depth);
      var k := Onwards(r, f, m);
      n := NestedMatches(fs, origin, target.components, depth + 1, [Close] + after, k + 1);
      PassedLink(fs, at, name, target, after, depth, inner.value, r, tail, f, m, n);
      n := n + m + 2;
    }
  }

  /** The fuel with which what remains is compared. */
  function Onwards(r: Result<Path, Error>, f: nat, m: nat): nat {
    match r
    case Err(SymlinkLoop) => m
    case Err(ResolvePath(_)) => f
    case Ok(_) => m + f
  }

  lemma PassedLink(fs: FileSystem, at: Path, name: Name, target: Target, after: seq<Entry>, depth: nat,
                   inner: Path, r: Result<Path, Error>, tail: seq<Entry>, f: nat, m: nat, n: nat)
    requires depth < MAX_SYMLINK_DEPTH && fs(at + [name]) == Link(target)
    requires Matches(fs, inner, after, depth, r, tail, f, m)
    requires Matches(fs, Origin(at, target), Visits(target.components) + ([Close] + after), depth + 1, Ok(inner),
                     [Close] + after, Onwards(r, f, m) + 1, n)
    ensures Matches(fs, at, [Visit(Normal(name))] + after, depth, r, tail, f, n + m + 2)
  {
    var k := Onwards(r, f, m);
    var entries := [Visit(Normal(name))] + after;
    CloseStep(fs, inner, after, depth, k);
    LinkStep(fs, at, name, target, after, depth, n + k + 1);
    hide NestsTooDeep, Visits;
    assert NestsTooDeep(fs, at, entries, depth, n + k + 2) == NestsTooDeep(fs, inner, after, depth, k);
    if r.Err? && r.error.ResolvePath? && NestsTooDeep(fs, at, entries, depth, f) {
      DepthIsStable(fs, at, entries, depth, f, n + k + 2);
    }
  }

  lemma DeepestLink(fs: FileSystem, at: Path, name: Name, target: Target, after: seq<Entry>, tail: seq<Entry>, f: nat)
    requires fs(at + [name]) == Link(target)
    ensures Matches(fs, at, [Visit(Normal(name))] + after, MAX_SYMLINK_DEPTH, Err(SymlinkLoop), tail, f, 1)
  {
    LinkStep(fs, at, name, target, after, MAX_SYMLINK_DEPTH, 0);
  }

  lemma OriginIsLinkFree(fs: FileSystem, at: Path, target: Target)
    requires LinkFree(fs, at)
    ensures LinkFree(fs, Origin(at, target))
  {
  }

  lemma FailedLink(fs: FileSystem, at: Path, name: Name, target: Target, after: seq<Entry>, depth: nat,
                   inner: Result<Path, Error>, tail: seq<Entry>, f: nat, n: nat)
    requires depth <= MAX_SYMLINK_DEPTH && fs(at + [name]) == Link(target) && inner.Err?
    requires Matches(fs, Origin(at, target), Visits(target.components) + ([Close] + after), depth + 1, inner,
                     [Close] + after, f, n)
    ensures Matches(fs, at, [Visit(Normal(name))] + after, depth, inner, tail, f, n + 1)
  {
    LinkStep(fs, at, name, target, after, depth, n);
    if f > 0 {
      LinkStep(fs, at, name, target, after, depth, f - 1);
      var start := Visits(target.components) + ([Close] + after);
      if NestsTooDeep(fs, Origin(at, target), start, depth + 1, f - 1) {
        DepthIsStable(fs, Origin(at, target), start, depth + 1, f - 1, f);
      }
    }
  }

  lemma NothingLeft(fs: FileSystem)
    ensures forall at: Path, fuel: nat :: !NestsTooDeep(fs, at, [], 0, fuel)
  {
  }

  /** Too many links are reported exactly when more than forty links are open at once: each
      followed while the target of the one before it was still being walked. */
  lemma TooManyLinksExactlyWhen(fs: FileSystem, absolute: seq<Component>)
    ensures Resolve(fs, [], absolute, 0) == Err(SymlinkLoop)
       <==> exists fuel: nat :: NestsTooDeep(fs, [], Visits(absolute), 0, fuel)
  {
    hide NestsTooDeep, Resolve, Visits;
    NothingLeft(fs);
    var entries := Visits(absolute);
    assert entries + [] == entries;
    var r := Resolve(fs, [], absolute, 0);
    if r == Err(SymlinkLoop) {
      var n := NestedMatches(fs, [], absolute, 0, [], 0);
      assert NestsTooDeep(fs, [], entries, 0, n);
      assert exists fuel: nat :: NestsTooDeep(fs, [], Visits(absolute), 0, fuel);
    } else {
      forall fuel: nat ensures !NestsTooDeep(fs, [], entries, 0, fuel) {
        var n := NestedMatches(fs, [], absolute, 0, [], fuel);
        if NestsTooDeep(fs, [], entries, 0, fuel) {
          DepthIsStable(fs, [], entries, 0, fuel, n + fuel);
        }
      }
    }
  }
}
