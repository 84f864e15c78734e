/**
 Archive member names (internal/bootstrapstate/archive.go, safeArchiveName): what survives the comparison with
 the cleaned path is exactly a list of plain components.
 */
module ArchivePaths {
  import opened Ordering
  import opened Splitting

  /** `strings.Split(s, "/")`. */
  function Split(s: string): (r: seq<string>)
    ensures |r| >= 1
  {
    SplitOn('/', s)
  }

  function Join(c: seq<string>): string
    requires |c| >= 1
  {
    JoinOn('/', c)
  }

  /** The first component, read off the text. */
  lemma FirstComponent(name: string, component: string)
    requires '/' !in component
    ensures Split(name)[0] == component <==> name == component || component + "/" <= name
    ensures |Split(name)| > 1 && Split(name)[0] == component <==> component + "/" <= name
  {
    FirstPart('/', name, component);
  }

  /** A component that names something inside its directory. */
  predicate Plain(component: string)
  {
    component != "" && component != "." && component != ".." && '/' !in component
  }

  predicate AllPlain(components: seq<string>) { forall i | 0 <= i < |components| :: Plain(components[i]) }

  /** One step of `path.Clean` on a relative path. */
  function Push(stack: seq<string>, component: string): seq<string>
  {
    if component == "" || component == "." then stack
    else if component == ".." && stack != [] && stack[|stack| - 1] != ".." then stack[..|stack| - 1]
    else stack + [component]
  }

  function CleanAll(stack: seq<string>, components: seq<string>): seq<string>
    decreases |components|
  {
    if components == [] then stack else CleanAll(Push(stack, components[0]), components[1..])
  }

  /** `path.Clean` on a relative path. */
  function Clean(name: string): string
  {
    var stack := CleanAll([], Split(name));
    if stack == [] then "." else Join(stack)
  }

  /** What cleaning leaves: climbs first, plain components after them. */
  predicate Cleaned(stack: seq<string>)
  {
    && (forall i | 0 <= i < |stack| :: stack[i] == ".." || Plain(stack[i]))
    && (forall i | 0 < i < |stack| && stack[i] == ".." :: stack[i - 1] == "..")
  }

  lemma {:induction false} CleanAllCleaned(stack: seq<string>, components: seq<string>)
    requires Cleaned(stack) && Without('/', components)
    ensures Cleaned(CleanAll(stack, components))
    decreases |components|
  {
    if components != [] { CleanAllCleaned(Push(stack, components[0]), components[1..]); }
  }

  lemma {:induction false} CleanAllPlain(stack: seq<string>, components: seq<string>)
    requires AllPlain(components)
    ensures CleanAll(stack, components) == stack + components
    decreases |components|
  {
    if components != [] {
      CleanAllPlain(stack + [components[0]], components[1..]);
      assert stack + [components[0]] + components[1..] == stack + components;
    } else {
      assert stack + components == stack;
    }
  }

  /** `safeArchiveName`: nonempty, no backslash, relative, already clean, and not climbing. */
  predicate Safe(name: string)
  {
    && name != "" && '\\' !in name && name[0] != '/'
    && Clean(name) != "." && Clean(name) != ".." && !("../" <= Clean(name))
    && Clean(name) == name
  }

  lemma {:induction false} PlainThroughout(stack: seq<string>, i: nat)
    requires Cleaned(stack) && i < |stack| && stack[0] != ".."
    ensures Plain(stack[i]) && stack[i] != ".."
  {
    if i > 0 { PlainThroughout(stack, i - 1); }
  }

  lemma PlainIsSafe(name: string)
    requires '\\' !in name && AllPlain(Split(name))
    ensures Safe(name)
  {
    var parts := Split(name);
    CleanAllPlain([], parts);
    assert [] + parts == parts;
    JoinSplit('/', name);
    FirstComponent(name, "");
    FirstComponent(name, ".");
    FirstComponent(name, "..");
  }

  lemma SafeIsPlain(name: string)
    requires Safe(name)
    ensures AllPlain(Split(name))
  {
    var stack := CleanAll([], Split(name));
    SplitWithout('/', name);
    CleanAllCleaned([], Split(name));
    SplitJoin('/', stack);
    FirstComponent(name, "..");
    forall i | 0 <= i < |stack| ensures Plain(stack[i]) { PlainThroughout(stack, i); }
  }

  /** A name is accepted exactly when every component is plain: it stays below whatever root it is joined to. */
  lemma SafeNames(name: string)
    ensures Safe(name) <==> '\\' !in name && AllPlain(Split(name))
  {
    if Safe(name) { SafeIsPlain(name); }
    if '\\' !in name && AllPlain(Split(name)) { PlainIsSafe(name); }
  }
}
