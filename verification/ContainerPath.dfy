/**
 src/docker/mounts.rs: container paths in their normal form, and the targets decune keeps for itself.
 */
module ContainerPath {
  import opened Text

  /** `split('/')`: always at least one component. */
  function Components(s: string): (r: seq<string>)
    ensures r != []
  {
    if s == [] then [[]]
    else
      var rest := Components(s[1..]);
      if s[0] == '/' then [[]] + rest else [[s[0]] + rest[0]] + rest[1..]
  }

  /** The effect of one component on the stack. */
  function Push(stack: seq<string>, component: string): seq<string> {
    if component == "" || component == "." then stack
    else if component == ".." then if stack == [] then [] else stack[..|stack| - 1]
    else stack + [component]
  }

  function RunStack(stack: seq<string>, components: seq<string>): seq<string>
    decreases |components|
  {
    if components == [] then stack else RunStack(Push(stack, components[0]), components[1..])
  }

  /** The components that are left when the path has been walked from the root. */
  function Walk(target: string): seq<string> {
    RunStack([], Components(target))
  }

  /** Every component behind its slash. */
  function Join(components: seq<string>): string {
    if components == [] then [] else ['/'] + (components[0] + Join(components[1..]))
  }

  function Render(components: seq<string>): string {
    if components == [] then "/" else Join(components)
  }

  /** `normalize_container_path`. */
  function Normalize(target: string): string {
    Render(Walk(target))
  }

  method NormalizeContainerPath(target: string) returns (r: string)
    ensures r == Normalize(target)
  {
    var parts := Components(target);
    var stack: seq<string> := [];
    assert parts[0..] == parts;
    for i := 0 to |parts|
      invariant Walk(target) == RunStack(stack, parts[i..])
    {
      var component := parts[i];
      assert parts[i..][0] == component && parts[i..][1..] == parts[i + 1..];
      if component == "" || component == "." {
      } else if component == ".." {
        if stack != [] {
          stack := stack[..|stack| - 1];
        }
      } else {
        stack := stack + [component];
      }
    }
    r := Render(stack);
  }

  /** A real component: not empty, no dots-only step, no slash. */
  predicate Clean(c: string) {
    c != "" && c != "." && c != ".." && '/' !in c
  }

  predicate AllClean(cs: seq<string>) {
    forall i :: 0 <= i < |cs| ==> Clean(cs[i])
  }

  lemma {:induction false} ComponentsSlashFree(s: string)
    ensures forall i :: 0 <= i < |Components(s)| ==> '/' !in Components(s)[i]
  {
    if s != [] { ComponentsSlashFree(s[1..]); }
  }

  lemma {:induction false} RunStackClean(stack: seq<string>, components: seq<string>)
    requires AllClean(stack) && forall i :: 0 <= i < |components| ==> '/' !in components[i]
    ensures AllClean(RunStack(stack, components))
    decreases |components|
  {
    if components != [] {
      assert forall i :: 0 <= i < |components[1..]| ==> components[1..][i] == components[1 + i];
      RunStackClean(Push(stack, components[0]), components[1..]);
    }
  }

  lemma WalkClean(target: string)
    ensures AllClean(Walk(target))
  {
    ComponentsSlashFree(target);
    RunStackClean([], Components(target));
  }

  lemma {:induction false} RunStackOfClean(stack: seq<string>, cs: seq<string>)
    requires AllClean(cs)
    ensures RunStack(stack, cs) == stack + cs
    decreases |cs|
  {
    if cs == [] {
      assert stack + cs == stack;
    } else {
      assert Clean(cs[0]);
      assert forall i :: 0 <= i < |cs[1..]| ==> cs[1..][i] == cs[1 + i];
      RunStackOfClean(stack + [cs[0]], cs[1..]);
      assert (stack + [cs[0]]) + cs[1..] == stack + cs;
    }
  }

  lemma {:induction false} ComponentsOfPiece(c: string, rest: string)
    requires '/' !in c
    ensures Components(c + (['/'] + rest)) == [c] + Components(rest)
  {
    var s := c + (['/'] + rest);
    if c == [] {
      assert s[1..] == rest;
    } else {
      assert s[0] == c[0] && s[1..] == c[1..] + (['/'] + rest);
      assert forall x :: x in c[1..] ==> x in c;
      ComponentsOfPiece(c[1..], rest);
      assert c == [c[0]] + c[1..];
      assert ([c[1..]] + Components(rest))[1..] == Components(rest);
    }
  }

  lemma {:induction false} ComponentsOfLast(c: string)
    requires '/' !in c
    ensures Components(c) == [c]
  {
    if c != [] {
      assert c[0] in c && forall x :: x in c[1..] ==> x in c;
      ComponentsOfLast(c[1..]);
      assert c == [c[0]] + c[1..];
    }
  }

  /** Splitting a rendered path gives its components back, behind the empty one before the first slash. */
  lemma {:induction false} ComponentsOfJoin(cs: seq<string>)
    requires AllClean(cs)
    ensures Components(Join(cs)) == [""] + cs
  {
    if cs == [] {
    } else {
      assert Clean(cs[0]);
      assert forall i :: 0 <= i < |cs[1..]| ==> cs[1..][i] == cs[1 + i];
      var rest := cs[0] + Join(cs[1..]);
      ComponentsOfPiece("", rest);
      assert "" + (['/'] + rest) == Join(cs);
      assert cs == [cs[0]] + cs[1..];
      if cs[1..] == [] {
        assert rest == cs[0];
        ComponentsOfLast(cs[0]);
      } else {
        ComponentsOfJoin(cs[1..]);
        var tail := Join(cs[1..])[1..];
        assert Join(cs[1..]) == ['/'] + tail;
        ComponentsOfPiece(cs[0], tail);
        ComponentsOfPiece("", tail);
        assert "" + (['/'] + tail) == Join(cs[1..]);
        assert ([""] + Components(tail))[1..] == Components(tail);
        assert ([""] + cs[1..])[1..] == cs[1..];
      }
    }
  }

  /** Walking a rendered list of real components gives that list. */
  lemma WalkRendered(cs: seq<string>)
    requires AllClean(cs)
    ensures Walk(Render(cs)) == cs
  {
    if cs == [] {
      assert Components("/") == ["", ""] by { ComponentsOfPiece("", ""); assert "" + (['/'] + "") == "/"; }
      assert RunStack([], ["", ""]) == RunStack([], [""]) == RunStack([], []) by {
        assert ["", ""][1..] == [""] && [""][1..] == [];
      }
    } else {
      ComponentsOfJoin(cs);
      assert ([""] + cs)[1..] == cs;
      RunStackOfClean([], cs);
      assert [] + cs == cs;
    }
  }

  /** The normal form has only real components, is its own normal form, and determines the walk. */
  lemma NormalForm(a: string, b: string)
    ensures AllClean(Walk(Normalize(a))) && Walk(Normalize(a)) == Walk(a)
    ensures Normalize(Normalize(a)) == Normalize(a)
    ensures Normalize(a) == Normalize(b) <==> Walk(a) == Walk(b)
  {
    WalkClean(a);
    WalkClean(b);
    WalkRendered(Walk(a));
    WalkRendered(Walk(b));
  }

  // ----- reserved targets -----

  /** `is_reserved_decune_target`. */
  predicate IsReserved(target: string) {
    || target == "/opt/decune" || StartsWith(target, "/opt/decune/")
    || target == "/run/decune" || StartsWith(target, "/run/decune/")
  }

  lemma {:induction false} JoinConcat(a: seq<string>, b: seq<string>)
    ensures Join(a + b) == Join(a) + Join(b)
  {
    if a == [] {
      assert a + b == b;
    } else {
      assert (a + b)[0] == a[0] && (a + b)[1..] == a[1..] + b;
      JoinConcat(a[1..], b);
      Assoc(a[0], Join(a[1..]), Join(b));
      Assoc(['/'], a[0] + Join(a[1..]), Join(b));
    }
  }

  /** A rendered path is at or below `/top/decune` exactly when it starts with these two components. */
  lemma BelowReserved(cs: seq<string>, top: string)
    requires AllClean(cs) && Clean(top)
    ensures Render(cs) == Join([top, "decune"]) || StartsWith(Render(cs), Join([top, "decune"]) + "/")
            <==> |cs| >= 2 && cs[0] == top && cs[1] == "decune"
  {
    var root := Join([top, "decune"]);
    if |cs| >= 2 && cs[0] == top && cs[1] == "decune" {
      StartsAtReserved(cs, top);
    }
    if Render(cs) == root {
      WalkRendered(cs);
      WalkRendered([top, "decune"]);
    }
    if StartsWith(Render(cs), root + "/") {
      ReservedFront(cs, top);
    }
  }

  lemma StartsAtReserved(cs: seq<string>, top: string)
    requires |cs| >= 2 && cs[0] == top && cs[1] == "decune"
    ensures Join(cs) == Join([top, "decune"]) || StartsWith(Join(cs), Join([top, "decune"]) + "/")
  {
    var root, rest := [top, "decune"], cs[2..];
    assert cs == root + rest;
    JoinConcat(root, rest);
    SlashBehind(Join(root), Join(rest));
  }

  lemma SlashBehind(root: string, rest: string)
    requires rest == "" || rest[0] == '/'
    ensures root + rest == root || StartsWith(root + rest, root + "/")
  {
    if rest == "" {
      assert root + rest == root;
    } else {
      assert (root + rest)[..|root| + 1] == root + "/";
    }
  }

  lemma ReservedFront(cs: seq<string>, top: string)
    requires AllClean(cs) && Clean(top) && StartsWith(Render(cs), Join([top, "decune"]) + "/")
    ensures |cs| >= 2 && cs[0] == top && cs[1] == "decune"
  {
    var root := Join([top, "decune"]);
    var tail := Render(cs)[|root| + 1..];
    assert |root + "/"| == |root| + 1;
    assert Render(cs) == Render(cs)[..|root| + 1] + tail == (root + "/") + tail;
    Assoc(root, "/", tail);
    assert cs != [] by { assert |root| >= 2 && |Render(cs)| >= 3; }
    ComponentsOfJoin(cs);
    ComponentsBelow(top, tail);
    assert ([""] + cs)[1] == top && ([""] + cs)[2] == "decune";
  }

  lemma ComponentsBelow(top: string, tail: string)
    requires Clean(top)
    ensures Components(Join([top, "decune"]) + (['/'] + tail)) == ["", top, "decune"] + Components(tail)
  {
    var below := "decune" + (['/'] + tail);
    ReservedText(top, tail);
    ComponentsOfPiece("", top + (['/'] + below));
    ComponentsOfPiece(top, below);
    ComponentsOfPiece("decune", tail);
  }

  lemma ReservedText(top: string, tail: string)
    ensures Join([top, "decune"]) + (['/'] + tail)
            == "" + (['/'] + (top + (['/'] + ("decune" + (['/'] + tail)))))
  {
    JoinOfTwo(top, "decune");
    Assoc3(['/'], top, ['/'] + "decune", ['/'] + tail);
    Assoc(['/'], "decune", ['/'] + tail);
    EmptyInFront(['/'] + (top + (['/'] + ("decune" + (['/'] + tail)))));
  }

  lemma JoinOfTwo(a: string, b: string)
    ensures Join([a, b]) == ['/'] + (a + (['/'] + b))
  {
    assert [a, b][1..] == [b] && [b][1..] == [];
    assert Join([b]) == ['/'] + (b + "") && b + "" == b;
  }

  lemma EmptyInFront(s: string)
    ensures "" + s == s
  {
  }

  /** A normalised target is reserved exactly when its first two components are opt/decune or run/decune. */
  lemma ReservedExactly(target: string)
    ensures IsReserved(Normalize(target))
            <==> var cs := Walk(target); |cs| >= 2 && (cs[0] == "opt" || cs[0] == "run") && cs[1] == "decune"
  {
    WalkClean(target);
    JoinOfRoot("opt");
    JoinOfRoot("run");
    assert "/opt/decune" == ['/'] + ("opt" + "/decune");
    assert "/run/decune" == ['/'] + ("run" + "/decune");
    BelowReserved(Walk(target), "opt");
    BelowReserved(Walk(target), "run");
  }

  lemma JoinOfRoot(top: string)
    ensures Join([top, "decune"]) == ['/'] + (top + "/decune")
  {
    assert [top, "decune"][1..] == ["decune"] && ["decune"][1..] == [];
    assert Join(["decune"]) == "/decune";
  }

  /** `validate_target`. */
  function ValidateTarget(target: string): Result<string> {
    if !StartsWith(target, "/") || IsReserved(Normalize(target)) then Err else Ok(Normalize(target))
  }

  /** A target that is accepted is absolute, in normal form, and outside the reserved directories. */
  lemma ValidatedTargets(target: string)
    ensures match ValidateTarget(target)
            case Err => !StartsWith(target, "/") || IsReserved(Normalize(target))
            case Ok(t) => StartsWith(t, "/") && Normalize(t) == t && AllClean(Walk(t)) && !IsReserved(t)
  {
    NormalForm(target, target);
    var cs := Walk(target);
    if cs != [] { assert Join(cs)[0] == '/'; }
  }
}
