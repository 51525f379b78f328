/**
 The environment block of linker/linker_environ.c: a NULL-terminated array of definitions that is
 compacted in place.
 */
module Environ {
  import opened Wrappers

  /** One entry of the array: the terminator or a definition (without its NUL). */
  datatype Entry = Null | Str(s: string)

  // ---------------------------------------------------------------- definitions

  /** `envstr` starts with `name` and an equal sign. */
  predicate Matches(envstr: string, name: string) {
    |name| < |envstr| && envstr[..|name|] == name && envstr[|name|] == '='
  }

  /** apkenv_env_match: the position after the equal sign, if the names agree. */
  method EnvMatch(envstr: string, name: string) returns (val: Option<string>)
    ensures val == if Matches(envstr, name) then Some(envstr[|name| + 1..]) else None
  {
    var cnt := 0;
    while cnt < |name| && cnt < |envstr| && envstr[cnt] == name[cnt]
      invariant 0 <= cnt <= |name| && cnt <= |envstr|
      invariant forall i :: 0 <= i < cnt ==> envstr[i] == name[i]
    {
      cnt := cnt + 1;
    }
    if cnt == |name| && cnt < |envstr| && envstr[cnt] == '=' {
      assert envstr[..cnt] == name;
      return Some(envstr[cnt + 1..]);
    }
    assert forall i :: 0 <= i < |name| && |name| <= |envstr| ==> envstr[i] == envstr[..|name|][i];
    return None;
  }

  const MAX_ENV_LEN := 32 * 4096

  /** Short enough, and with an equal sign that is not the first character. */
  predicate IsDefinition(s: string) {
    |s| < MAX_ENV_LEN && '=' in s && s[0] != '='
  }

  /** apkenv__is_valid_definition */
  method IsValidDefinition(str: string) returns (valid: bool)
    ensures valid <==> IsDefinition(str)
  {
    var pos, firstEqual := 0, -1;
    while pos < MAX_ENV_LEN && pos < |str|
      invariant 0 <= pos <= |str| && pos <= MAX_ENV_LEN
      invariant firstEqual == -1 ==> '=' !in str[..pos]
      invariant firstEqual != -1 ==> 0 <= firstEqual < pos && str[firstEqual] == '=' && '=' !in str[..firstEqual]
    {
      assert str[..pos + 1] == str[..pos] + [str[pos]];
      if str[pos] == '=' && firstEqual < 0 {
        firstEqual := pos;
      }
      pos := pos + 1;
    }
    if pos >= MAX_ENV_LEN {
      return false;
    }
    assert str[..pos] == str;
    if firstEqual < 1 {
      return false;
    }
    assert str[0] == str[..firstEqual][0];
    return true;
  }

  // ---------------------------------------------------------------- the block as a list

  /** The definitions before the terminator. */
  function Definitions(block: seq<Entry>): seq<string> {
    if block == [] || block[0].Null? then [] else [block[0].s] + Definitions(block[1..])
  }

  ghost predicate Terminated(block: seq<Entry>) {
    Null in block
  }

  function Without(defs: seq<string>, name: string): seq<string> {
    if defs == [] then []
    else (if Matches(defs[0], name) then [] else [defs[0]]) + Without(defs[1..], name)
  }

  function ValidOnes(defs: seq<string>): seq<string> {
    if defs == [] then []
    else (if IsDefinition(defs[0]) then [defs[0]] else []) + ValidOnes(defs[1..])
  }

  /** The value of the first definition of `name`; an empty value counts as none. */
  function Value(defs: seq<string>, name: string): Option<string> {
    if name == [] || defs == [] then None
    else if Matches(defs[0], name) then
      var v := defs[0][|name| + 1..];
      if v == [] then None else Some(v)
    else Value(defs[1..], name)
  }

  /** The first definition of the name decides, and decides for none if its value is empty. */
  lemma {:induction false} FirstDefinitionWins(defs: seq<string>, name: string, v: string)
    requires name != []
    ensures Value(defs, name) == Some(v) <==>
      v != [] && exists k :: 0 <= k < |defs| && defs[k] == name + "=" + v && NoneBefore(defs, k, name)
    ensures Value([], []) == None && Value(defs, []) == None
  {
    hide Matches;
    var k := 0;
    while k < |defs| && !Matches(defs[k], name)
      invariant 0 <= k <= |defs| && forall j :: 0 <= j < k ==> !Matches(defs[j], name)
      invariant Value(defs, name) == Value(defs[k..], name)
    {
      assert defs[k..][1..] == defs[k + 1..];
      k := k + 1;
    }
    forall j | 0 <= j < |defs|
      ensures Matches(defs[j], name) <==> name + "=" <= defs[j]
    {
      MatchesMeans(defs[j], name);
    }
    if k < |defs| {
      MatchesMeans(defs[k], name);
      assert NoneBefore(defs, k, name);
    }
  }

  ghost predicate NoneBefore(defs: seq<string>, k: nat, name: string)
    requires k <= |defs|
  {
    forall j :: 0 <= j < k ==> !(name + "=" <= defs[j])
  }

  lemma {:induction false} MatchesMeans(def: string, name: string)
    ensures Matches(def, name) <==> name + "=" <= def
    ensures Matches(def, name) ==> def == name + "=" + def[|name| + 1..]
  {
    if name + "=" <= def {
      assert def[|name|] == (name + "=")[|name|] && def[..|name|] == (name + "=")[..|name|];
    }
    if Matches(def, name) {
      assert def[..|name| + 1] == name + "=";
    }
  }

  function Strings(defs: seq<string>): (b: seq<Entry>)
    ensures |b| == |defs| && forall i :: 0 <= i < |b| ==> b[i] == Str(defs[i])
  {
    seq(|defs|, i requires 0 <= i < |defs| => Str(defs[i]))
  }

  lemma {:induction false} DefinitionsOf(defs: seq<string>, rest: seq<Entry>)
    ensures Definitions(Strings(defs) + [Null] + rest) == defs
    decreases |defs|
  {
    var block := Strings(defs) + [Null] + rest;
    if defs != [] {
      assert block[1..] == Strings(defs[1..]) + [Null] + rest;
      DefinitionsOf(defs[1..], rest);
    }
  }

  lemma {:induction false} DefinitionsCount(block: seq<Entry>)
    requires Terminated(block)
    ensures |Definitions(block)| < |block| && block[|Definitions(block)|] == Null
    ensures forall i :: 0 <= i < |Definitions(block)| ==> block[i] == Str(Definitions(block)[i])
  {
    if !block[0].Null? {
      assert block == [block[0]] + block[1..];
      DefinitionsCount(block[1..]);
    }
  }

  lemma {:induction false} FromNothing(name: string)
    ensures Without([], name) == [] && ValidOnes([]) == []
  {
  }

  lemma {:induction false} WithoutAppend(a: seq<string>, d: string, name: string)
    ensures Without(a + [d], name) == Without(a, name) + if Matches(d, name) then [] else [d]
  {
    hide Matches;
    if a == [] {
      assert [d][1..] == [];
    } else {
      assert (a + [d])[1..] == a[1..] + [d];
      WithoutAppend(a[1..], d, name);
    }
  }

  lemma {:induction false} ValidOnesAppend(a: seq<string>, d: string)
    ensures ValidOnes(a + [d]) == ValidOnes(a) + if IsDefinition(d) then [d] else []
  {
    hide IsDefinition;
    if a == [] {
      assert [d][1..] == [];
    } else {
      assert (a + [d])[1..] == a[1..] + [d];
      ValidOnesAppend(a[1..], d);
      var head, last := if IsDefinition(a[0]) then [a[0]] else [], if IsDefinition(d) then [d] else [];
      assert head + (ValidOnes(a[1..]) + last) == head + ValidOnes(a[1..]) + last;
    }
  }

  /** What init keeps: the definitions shorter than 128 KiB whose first equal sign is not the first character, in
      their old order. */
  lemma {:induction false} InitKeepsOrder(defs: seq<string>) returns (at: seq<nat>)
    ensures |at| == |ValidOnes(defs)|
    ensures forall j :: 0 <= j < |at| ==> at[j] < |defs| && ValidOnes(defs)[j] == defs[at[j]]
    ensures forall j, k :: 0 <= j < k < |at| ==> at[j] < at[k]
    ensures forall i :: 0 <= i < |defs| ==> (i in at <==> |defs[i]| < 131072 && EqualSign(defs[i]) > 0)
  {
    hide ValidOnes, IsDefinition, EqualSign;
    at := [];
    FromNothing([]);
    assert defs[..0] == [];
    var n := 0;
    while n < |defs|
      invariant 0 <= n <= |defs| && |at| == |ValidOnes(defs[..n])|
      invariant forall j :: 0 <= j < |at| ==> at[j] < n && ValidOnes(defs[..n])[j] == defs[at[j]]
      invariant forall j, k :: 0 <= j < k < |at| ==> at[j] < at[k]
      invariant forall i :: 0 <= i < n ==> (i in at <==> |defs[i]| < 131072 && EqualSign(defs[i]) > 0)
    {
      DefinitionMeans(defs[n]);
      ValidOnesAppend(defs[..n], defs[n]);
      assert defs[..n + 1] == defs[..n] + [defs[n]];
      if IsDefinition(defs[n]) {
        at := at + [n];
      }
      n := n + 1;
    }
    assert defs[..n] == defs;
  }

  /** The place of the first equal sign, or -1. */
  ghost function EqualSign(s: string): (k: int)
    ensures -1 <= k < |s|
    ensures k >= 0 ==> s[k] == '='
    ensures forall i :: 0 <= i < (if k < 0 then |s| else k) ==> s[i] != '='
  {
    if exists i :: 0 <= i < |s| && s[i] == '=' then
      if s[0] == '=' then 0 else 1 + EqualSign(s[1..])
    else -1
  }

  lemma {:induction false} DefinitionMeans(s: string)
    ensures IsDefinition(s) <==> |s| < 131072 && EqualSign(s) > 0
  {
    var k := EqualSign(s);
  }

  // ---------------------------------------------------------------- the linker's environment

  class Environment {
    const envp: array<Entry>

    /** apkenv_linker_env_init: keep only valid definitions. */
    constructor (block: array<Entry>)
      requires Terminated(block[..])
      modifies block
      ensures envp == block
      ensures Definitions(envp[..]) == ValidOnes(old(Definitions(block[..]))) && Terminated(envp[..])
    {
      envp := block;
      new;
      hide IsDefinition, ValidOnes, Definitions;
      ghost var defs := Definitions(envp[..]);
      DefinitionsCount(envp[..]);
      FromNothing([]);
      var readp, writep := 0, 0;
      while envp[readp] != Null
        invariant 0 <= writep <= readp <= |defs| < envp.Length
        invariant forall i :: readp <= i < |defs| ==> envp[i] == Str(defs[i])
        invariant envp[|defs|] == Null
        invariant envp[..writep] == Strings(ValidOnes(defs[..readp]))
        decreases |defs| - readp
      {
        var valid := IsValidDefinition(envp[readp].s);
        ValidOnesAppend(defs[..readp], defs[readp]);
        assert defs[..readp + 1] == defs[..readp] + [defs[readp]];
        if valid {
          envp[writep] := envp[readp];
          writep := writep + 1;
        }
        readp := readp + 1;
      }
      envp[writep] := Null;
      assert defs[..readp] == defs;
      assert envp[..] == Strings(ValidOnes(defs)) + [Null] + envp[writep + 1..];
      DefinitionsOf(ValidOnes(defs), envp[writep + 1..]);
    }

    /** apkenv_linker_env_get */
    method Get(name: string) returns (val: Option<string>)
      requires Terminated(envp[..])
      ensures val == Value(Definitions(envp[..]), name)
    {
      if name == [] {
        return None;
      }
      ghost var defs := Definitions(envp[..]);
      DefinitionsCount(envp[..]);
      var readp := 0;
      while envp[readp] != Null
        invariant 0 <= readp <= |defs| < envp.Length
        invariant Value(defs, name) == Value(defs[readp..], name)
        decreases |defs| - readp
      {
        val := EnvMatch(envp[readp].s, name);
        if val.Some? {
          if val.value == [] {
            val := None;
          }
          return;
        }
        assert defs[readp..][1..] == defs[readp + 1..];
        readp := readp + 1;
      }
      return None;
    }

    /** apkenv_linker_env_unset */
    method Unset(name: string)
      requires Terminated(envp[..])
      modifies envp
      ensures Terminated(envp[..])
      ensures Definitions(envp[..]) ==
              if name == [] then old(Definitions(envp[..])) else Without(old(Definitions(envp[..])), name)
    {
      hide Matches, Without, Definitions;
      if name == [] {
        return;
      }
      ghost var defs := Definitions(envp[..]);
      DefinitionsCount(envp[..]);
      FromNothing(name);
      var readp, writep := 0, 0;
      while envp[readp] != Null
        invariant 0 <= writep <= readp <= |defs| < envp.Length
        invariant forall i :: readp <= i < |defs| ==> envp[i] == Str(defs[i])
        invariant envp[|defs|] == Null
        invariant envp[..writep] == Strings(Without(defs[..readp], name))
        decreases |defs| - readp
      {
        var val := EnvMatch(envp[readp].s, name);
        WithoutAppend(defs[..readp], defs[readp], name);
        assert defs[..readp + 1] == defs[..readp] + [defs[readp]];
        if val.None? {
          envp[writep] := envp[readp];
          writep := writep + 1;
        }
        readp := readp + 1;
      }
      envp[writep] := Null;
      assert defs[..readp] == defs;
      assert envp[..] == Strings(Without(defs, name)) + [Null] + envp[writep + 1..];
      DefinitionsOf(Without(defs, name), envp[writep + 1..]);
    }

    /** apkenv_linker_env_secure */
    method Secure()
      requires Terminated(envp[..])
      modifies envp
      ensures Terminated(envp[..])
      ensures Definitions(envp[..]) == WithoutAll(old(Definitions(envp[..])), UNSAFE)
    {
      hide Plain, Definitions;
      UnsafeNamesArePlain();
      ghost var start := Definitions(envp[..]);
      var cp := 0;
      assert UNSAFE[..0] == [];
      while cp < |UNSAFE|
        invariant 0 <= cp <= |UNSAFE| && Terminated(envp[..])
        invariant Definitions(envp[..]) == WithoutAll(start, UNSAFE[..cp])
      {
        PlainIsNotEmpty(UNSAFE[cp]);
        Unset(UNSAFE[cp]);
        assert UNSAFE[..cp + 1] == UNSAFE[..cp] + [UNSAFE[cp]];
        WithoutAllLast(start, UNSAFE[..cp], UNSAFE[cp]);
        cp := cp + 1;
      }
      assert UNSAFE[..cp] == UNSAFE;
    }
  }

  const UNSAFE: seq<string> := UNSAFE_1 + UNSAFE_2 + UNSAFE_3

  const UNSAFE_1: seq<string> := [
    "GCONV_PATH", "GETCONF_DIR", "HOSTALIASES", "LD_AUDIT", "LD_DEBUG", "LD_DEBUG_OUTPUT", "LD_DYNAMIC_WEAK",
    "LD_LIBRARY_PATH"]

  const UNSAFE_2: seq<string> := [
    "LD_ORIGIN_PATH", "LD_PRELOAD", "LD_PROFILE", "LD_SHOW_AUXV", "LD_USE_LOAD_BIAS",
    "LOCALDOMAIN", "LOCPATH", "MALLOC_TRACE"]

  const UNSAFE_3: seq<string> := [
    "MALLOC_CHECK_", "NIS_PATH", "NLSPATH", "RESOLV_HOST_CONF",
    "RES_OPTIONS", "TMPDIR", "TZDIR", "LD_AOUT_LIBRARY_PATH", "LD_AOUT_PRELOAD"]

  function WithoutAll(defs: seq<string>, names: seq<string>): seq<string>
    decreases |names|
  {
    if names == [] then defs else WithoutAll(Without(defs, names[0]), names[1..])
  }

  lemma {:induction false} WithoutAllLast(defs: seq<string>, names: seq<string>, n: string)
    ensures WithoutAll(defs, names + [n]) == Without(WithoutAll(defs, names), n)
    decreases |names|
  {
    if names == [] {
      assert [n][1..] == [];
      assert names + [n] == [n];
    } else {
      assert (names + [n])[1..] == names[1..] + [n];
      WithoutAllLast(Without(defs, names[0]), names[1..], n);
    }
  }

  // ---------------------------------------------------------------- what unsetting means

  predicate Plain(name: string) { name != [] && '=' !in name }

  lemma {:induction false} PlainIsNotEmpty(name: string)
    requires Plain(name)
    ensures name != []
  {
  }

  /** A definition belongs to one plain name only. */
  lemma {:induction false} OneName(s: string, a: string, b: string)
    requires Plain(a) && Plain(b) && Matches(s, a) && Matches(s, b)
    ensures a == b
  {
    assert forall i :: 0 <= i < |a| ==> s[i] == s[..|a|][i];
    assert forall i :: 0 <= i < |b| ==> s[i] == s[..|b|][i];
  }

  /** Unset removes every definition of the name. */
  lemma {:induction false} UnsetRemoves(defs: seq<string>, name: string)
    ensures forall i :: 0 <= i < |Without(defs, name)| ==> !Matches(Without(defs, name)[i], name)
    ensures Value(Without(defs, name), name) == None
  {
    if defs != [] {
      var rest := Without(defs[1..], name);
      UnsetRemoves(defs[1..], name);
      if Matches(defs[0], name) {
        assert Without(defs, name) == rest;
      } else {
        assert Without(defs, name) == [defs[0]] + rest;
        ValueOfCons(defs[0], rest, name);
      }
    }
  }

  lemma {:induction false} ValueOfCons(d: string, rest: seq<string>, name: string)
    requires !Matches(d, name)
    ensures Value([d] + rest, name) == Value(rest, name)
  {
    assert ([d] + rest)[1..] == rest;
  }

  /** How many of the first `i` definitions survive. */
  function Rank(defs: seq<string>, name: string, i: nat): nat
    requires i <= |defs|
  {
    if i == 0 then 0 else Rank(defs, name, i - 1) + if Matches(defs[i - 1], name) then 0 else 1
  }

  lemma {:induction false} SurvivorCount(defs: seq<string>, name: string, n: nat)
    requires n <= |defs|
    ensures |Without(defs[..n], name)| == Rank(defs, name, n)
  {
    hide Matches, Without;
    if n == 0 {
      FromNothing(name);
      assert defs[..0] == [];
    } else {
      SurvivorCount(defs, name, n - 1);
      WithoutAppend(defs[..n - 1], defs[n - 1], name);
      assert defs[..n] == defs[..n - 1] + [defs[n - 1]];
    }
  }

  /** Everything else stays, in its old order. */
  lemma {:induction false} UnsetKeepsOrder(defs: seq<string>, name: string, i: nat, n: nat)
    requires i < n <= |defs| && !Matches(defs[i], name)
    ensures |Without(defs[..n], name)| == Rank(defs, name, n)
    ensures Rank(defs, name, i) < Rank(defs, name, n)
    ensures Without(defs[..n], name)[Rank(defs, name, i)] == defs[i]
    decreases n
  {
    hide Matches, Without, Rank;
    SurvivorCount(defs, name, n);
    SurvivorCount(defs, name, n - 1);
    WithoutAppend(defs[..n - 1], defs[n - 1], name);
    assert defs[..n] == defs[..n - 1] + [defs[n - 1]];
    if i < n - 1 {
      UnsetKeepsOrder(defs, name, i, n - 1);
    }
  }

  /** Unset leaves the value of every other plain name alone. */
  lemma {:induction false} UnsetKeepsOthers(defs: seq<string>, name: string, other: string)
    requires Plain(name) && Plain(other) && name != other
    ensures Value(Without(defs, name), other) == Value(defs, other)
  {
    if defs != [] {
      UnsetKeepsOthers(defs[1..], name, other);
      var rest := Without(defs[1..], name);
      if Matches(defs[0], name) {
        if Matches(defs[0], other) {
          OneName(defs[0], name, other);
        }
        assert Without(defs, name) == rest;
      } else {
        assert Without(defs, name)[1..] == rest;
      }
    }
  }

  /** Names whose removal touches no other plain name: those with no equal sign after the first place. */
  predicate Harmless(name: string) {
    '=' !in name || name[0] == '='
  }

  lemma {:induction false} FirstAgrees(s: string, name: string)
    requires name != [] && Matches(s, name)
    ensures s[0] == name[0]
  {
    assert s[..|name|][0] == s[0];
  }

  /** Unset leaves every other plain name alone exactly for harmless names: here is why such a name
      does no damage, even one that starts with an equal sign. */
  lemma {:induction false} HarmlessUnset(defs: seq<string>, name: string, other: string)
    requires name != [] && Harmless(name) && Plain(other) && name != other
    ensures Value(Without(defs, name), other) == Value(defs, other)
  {
    if '=' !in name {
      UnsetKeepsOthers(defs, name, other);
    } else if defs != [] {
      HarmlessUnset(defs[1..], name, other);
      var rest := Without(defs[1..], name);
      if Matches(defs[0], name) {
        FirstAgrees(defs[0], name);
        if Matches(defs[0], other) {
          FirstAgrees(defs[0], other);
        }
        assert Without(defs, name) == rest;
      } else {
        assert Without(defs, name) == [defs[0]] + rest;
        assert Without(defs, name)[1..] == rest;
      }
    }
  }

  /** Any other name takes along a variable whose definition happens to start with it. */
  lemma {:induction false} HarmfulUnset(name: string) returns (defs: seq<string>, other: string)
    requires !Harmless(name)
    ensures Plain(other) && other != name
    ensures Value(Without(defs, name), other) != Value(defs, other)
  {
    var k := FirstEqual(name);
    other := name[..k];
    var d := name + "=x";
    defs := [d];
    assert d[..|name|] == name && d[..k] == name[..k] && d[k] == '=';
    assert Matches(d, name) && Matches(d, other);
    assert defs[1..] == [];
    assert |d[k + 1..]| > 0;
  }

  lemma {:induction false} FirstEqual(name: string) returns (k: nat)
    requires '=' in name && name[0] != '='
    ensures 0 < k < |name| && name[k] == '=' && '=' !in name[..k]
  {
    k := 0;
    while name[k] != '='
      invariant 0 <= k < |name| && '=' !in name[..k]
      invariant exists i :: k <= i < |name| && name[i] == '='
      decreases |name| - k
    {
      assert name[..k + 1] == name[..k] + [name[k]];
      k := k + 1;
    }
  }

  /** After Secure, no listed name has a value, and every other plain name keeps its value. */
  lemma {:induction false} SecureAll(defs: seq<string>, names: seq<string>, other: string)
    requires forall i :: 0 <= i < |names| ==> Plain(names[i])
    requires Plain(other)
    ensures other in names ==> Value(WithoutAll(defs, names), other) == None
    ensures other !in names ==> Value(WithoutAll(defs, names), other) == Value(defs, other)
    ensures Value(defs, other) == None ==> Value(WithoutAll(defs, names), other) == None
    decreases |names|
  {
    if names != [] {
      var next := Without(defs, names[0]);
      SecureAll(next, names[1..], other);
      UnsetRemoves(defs, names[0]);
      if other != names[0] {
        UnsetKeepsOthers(defs, names[0], other);
      }
      assert names == [names[0]] + names[1..];
    }
  }

  predicate AllPlain(names: seq<string>) {
    forall i :: 0 <= i < |names| ==> Plain(names[i])
  }

  lemma {:induction false} UnsafeNamesArePlain()
    ensures AllPlain(UNSAFE)
  {
    assert AllPlain(UNSAFE_1) by { PlainOnes(); }
    assert AllPlain(UNSAFE_2) by { PlainTwos(); }
    assert AllPlain(UNSAFE_3) by { PlainThrees(); }
    hide Plain;
  }

  lemma {:induction false} PlainOnes()
    ensures AllPlain(UNSAFE_1)
  {
  }

  lemma {:induction false} PlainTwos()
    ensures AllPlain(UNSAFE_2)
  {
  }

  lemma {:induction false} PlainThrees()
    ensures AllPlain(UNSAFE_3)
  {
  }

  /** What Secure leaves: no listed name has a value, every other plain name has the value it had. */
  lemma {:induction false} SecureMeans(defs: seq<string>, other: string)
    requires Plain(other)
    ensures Value(WithoutAll(defs, UNSAFE), other) == if other in UNSAFE then None else Value(defs, other)
  {
    UnsafeNamesArePlain();
    SecureAll(defs, UNSAFE, other);
  }
}
