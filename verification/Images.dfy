/**
 Images and their names: what the outside world provides when a library is looked for, and how
 linker/linker.c turns the name it is asked for into a path and a base name.
 */
module Images {
  import opened Traces
  import opened RefGraph

  const SOINFO_NAME_LEN := 128

  /** How linking a loaded image ends: it succeeds; its dynamic section is missing or lacks the
      string or symbol table; a relocation fails; or write-protecting GNU_RELRO fails. */
  datatype Fate = Links | LacksTables | RelocationFails | RelroFails

  /** What the outside world answers when a library is to be opened and mapped. */
  datatype Outcome =
    | NotFound(glibc: bool)
    | Unreadable
    | MapFails
    | Loads(needed: seq<string>, code: Code, fate: Fate)

  // ---------------------------------------------------------------- names

  function StripPrefix(name: string): string {
    if "/system/lib/" <= name then name[|"/system/lib/"|..]
    else if "/system/lib64/" <= name then name[|"/system/lib64/"|..]
    else name
  }

  /** The part after the last slash. */
  function Basename(name: string): (b: string)
    ensures '/' !in b
    ensures |b| <= |name| && name[|name| - |b|..] == b
    ensures |b| == |name| || name[|name| - |b| - 1] == '/'
  {
    if name == [] then []
    else if name[|name| - 1] == '/' then []
    else
      var b := Basename(name[..|name| - 1]) + [name[|name| - 1]];
      assert name == name[..|name| - 1] + [name[|name| - 1]];
      b
  }

  function Overridden(overrides: seq<(string, string)>, name: string): string {
    if overrides == [] then name
    else if overrides[0].0 == name then overrides[0].1
    else Overridden(overrides[1..], name)
  }

  /** One of the two system directories is stripped, once. */
  lemma {:induction false} StripPrefixMeans(name: string, rest: string)
    ensures StripPrefix("/system/lib/" + rest) == rest && StripPrefix("/system/lib64/" + rest) == rest
    ensures !("/system/lib/" <= name) && !("/system/lib64/" <= name) ==> StripPrefix(name) == name
  {
    var wide, narrow := "/system/lib64/" + rest, "/system/lib/" + rest;
    assert wide[|"/system/lib64/"|..] == rest && narrow[|"/system/lib/"|..] == rest;
    assert wide[11] == '6' && "/system/lib/"[11] == '/';
  }

  /** The first override of the name wins, and a name without one is kept. */
  lemma {:induction false} FirstOverrideWins(overrides: seq<(string, string)>, name: string, path: string)
    ensures Overridden(overrides, name) == path <==>
      || (exists k :: 0 <= k < |overrides| && overrides[k] == (name, path) && NoneBefore(overrides, k, name))
      || (path == name && NoneBefore(overrides, |overrides|, name))
  {
    var k := 0;
    while k < |overrides| && overrides[k].0 != name
      invariant 0 <= k <= |overrides| && NoneBefore(overrides, k, name)
      invariant Overridden(overrides, name) == Overridden(overrides[k..], name)
    {
      assert overrides[k..][1..] == overrides[k + 1..];
      k := k + 1;
    }
    assert k < |overrides| ==> overrides[k] == (name, overrides[k].1);
  }

  ghost predicate NoneBefore(overrides: seq<(string, string)>, k: nat, name: string)
    requires k <= |overrides|
  {
    forall j :: 0 <= j < k ==> overrides[j].0 != name
  }

  function Names(needed: seq<string>): (d: seq<Needed>)
    ensures |d| == |needed|
    ensures forall k :: 0 <= k < |d| ==> d[k] == Name(needed[k])
  {
    seq(|needed|, k requires 0 <= k < |needed| => Name(needed[k]))
  }

  /** Where a library asked for as `nm` is looked for. */
  function PathOf(overrides: seq<(string, string)>, nm: string): string {
    Overridden(overrides, StripPrefix(nm))
  }

  /** The name under which it is kept. */
  function BaseOf(overrides: seq<(string, string)>, nm: string): string {
    Basename(PathOf(overrides, nm))
  }

  function Bases(overrides: seq<(string, string)>, needed: seq<string>): (w: seq<string>)
    ensures |w| == |needed|
    ensures forall k :: 0 <= k < |w| ==> w[k] == BaseOf(overrides, needed[k])
  {
    seq(|needed|, k requires 0 <= k < |needed| => BaseOf(overrides, needed[k]))
  }
}
