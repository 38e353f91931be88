/**
 Editing the environment: a NULL-terminated array of NAME=value strings, from
 which a name is removed in place, and to which it is then added again.
 */
module Environ {
  import opened Options

  // ----- names and values -----

  /** A name as unsetenv() and setenv() accept it. */
  predicate ValidName(name: string) {
    name != "" && '=' !in name
  }

  /** strncmp(entry, name, len) == 0 && entry[len] == '=' */
  predicate Matches(entry: string, name: string) {
    |entry| > |name| && entry[..|name|] == name && entry[|name|] == '='
  }

  /** The part of an entry before its first equals sign; none without one. */
  function Key(entry: string): Option<string> {
    if entry == "" then None
    else if entry[0] == '=' then Some("")
    else match Key(entry[1..]) case None => None case Some(k) => Some([entry[0]] + k)
  }

  /** For a valid name the comparison is with the entry's key, not with a prefix of it. */
  lemma {:induction false} MatchesKey(entry: string, name: string)
    requires '=' !in name
    ensures Matches(entry, name) <==> Key(entry) == Some(name)
  {
    if entry != "" && name != "" {
      MatchesKey(entry[1..], name[1..]);
      assert [name[0]] + name[1..] == name;
      if |entry| > |name| {
        assert entry[..|name|] == [entry[0]] + entry[1..][..|name| - 1];
      }
    }
  }

  /** The value of the first definition of `name`, which is what getenv() returns. */
  function Get(env: seq<string>, name: string): Option<string> {
    if env == [] then None
    else if Matches(env[0], name) then Some(env[0][|name| + 1..])
    else Get(env[1..], name)
  }

  function Definitions(env: seq<string>, name: string): nat {
    if env == [] then 0 else (if Key(env[0]) == Some(name) then 1 else 0) + Definitions(env[1..], name)
  }

  // ----- what the calls should do -----

  /** The entries whose key differs from `name`, in order. */
  function Unset(env: seq<string>, name: string): seq<string> {
    if env == [] then []
    else if Key(env[0]) == Some(name) then Unset(env[1..], name)
    else [env[0]] + Unset(env[1..], name)
  }

  /** putenv(): the first entry with the key of `es` is replaced; without one, `es` is added. */
  function Put(env: seq<string>, es: string): seq<string> {
    if env == [] then [es]
    else if Key(env[0]) == Key(es) then [es] + env[1..]
    else [env[0]] + Put(env[1..], es)
  }

  predicate BadArguments(name: Option<string>, value: Option<string>) {
    name.None? || !ValidName(name.value) || value.None?
  }

  /** What setenv() leaves, and what it returns. */
  function Set(env: seq<string>, name: Option<string>, value: Option<string>, overwrite: bool, mallocOk: bool, putOk: bool): (seq<string>, int) {
    if BadArguments(name, value) then (env, -1)
    else if Get(env, name.value).Some? && !overwrite then (env, 0)
    else if !mallocOk || !putOk then (Unset(env, name.value), -1)
    else (Put(Unset(env, name.value), name.value + "=" + value.value), 0)
  }

  // ----- what that means -----

  lemma {:induction false} UnsetDefinitions(env: seq<string>, name: string, other: string)
    ensures Definitions(Unset(env, name), other) == if other == name then 0 else Definitions(env, other)
  {
    if env != [] {
      UnsetDefinitions(env[1..], name, other);
      assert ([env[0]] + Unset(env[1..], name))[1..] == Unset(env[1..], name);
    }
  }

  lemma {:induction false} UnsetGet(env: seq<string>, name: string, other: string)
    requires '=' !in other
    ensures Get(Unset(env, name), other) == if other == name then None else Get(env, other)
  {
    if env != [] {
      MatchesKey(env[0], other);
      UnsetGet(env[1..], name, other);
      assert ([env[0]] + Unset(env[1..], name))[1..] == Unset(env[1..], name);
    }
  }

  lemma {:induction false} DefinedMeans(env: seq<string>, name: string)
    requires '=' !in name
    ensures Get(env, name).Some? <==> Definitions(env, name) > 0
    ensures Unset(env, name) == env <==> Definitions(env, name) == 0
    ensures |Unset(env, name)| + Definitions(env, name) == |env|
  {
    if env != [] {
      MatchesKey(env[0], name);
      DefinedMeans(env[1..], name);
    }
  }

  lemma {:induction false} PutNew(env: seq<string>, es: string, name: string)
    requires Key(es) == Some(name) && Definitions(env, name) == 0
    ensures Put(env, es) == env + [es]
  {
    if env != [] { PutNew(env[1..], es, name); }
  }

  lemma {:induction false} AppendedGet(env: seq<string>, es: string, other: string)
    ensures Get(env + [es], other) == if Get(env, other).Some? then Get(env, other) else Get([es], other)
    ensures Definitions(env + [es], other) == Definitions(env, other) + Definitions([es], other)
  {
    if env == [] {
      assert env + [es] == [es];
    } else {
      assert (env + [es])[1..] == env[1..] + [es];
      AppendedGet(env[1..], es, other);
    }
  }

  lemma NewEntry(name: string, value: string)
    requires '=' !in name
    ensures var es := name + "=" + value; Key(es) == Some(name) && Get([es], name) == Some(value)
  {
    var es := name + "=" + value;
    MatchesKey(es, name);
    assert es[..|name|] == name && es[|name| + 1..] == value;
  }

  /**
   After a successful setenv() that overwrites, or whose name was new, the name
   is defined once, with the new value, and every other name is as it was.
   */
  lemma SetSucceeds(env: seq<string>, name: string, value: string, overwrite: bool, other: string)
    requires name != "" && '=' !in name && '=' !in other && (overwrite || Get(env, name).None?)
    ensures var r := Set(env, Some(name), Some(value), overwrite, true, true);
      && r.1 == 0 && Definitions(r.0, name) == 1 && Get(r.0, name) == Some(value)
      && (other != name ==> Get(r.0, other) == Get(env, other) && Definitions(r.0, other) == Definitions(env, other))
  {
    var es := name + "=" + value;
    var kept := Unset(env, name);
    NewEntry(name, value);
    UnsetDefinitions(env, name, name);
    UnsetDefinitions(env, name, other);
    UnsetGet(env, name, name);
    UnsetGet(env, name, other);
    PutNew(kept, es, name);
    AppendedGet(kept, es, name);
    AppendedGet(kept, es, other);
    MatchesKey(es, other);
    assert Get([es], other) == if other == name then Some(value) else None;
    assert Definitions([es], name) == 1 + Definitions([], name);
    assert Definitions([es], other) == (if other == name then 1 else 0) + Definitions([], other);
  }

  /** Without `overwrite` a name that is defined keeps its value, and so does every other, whatever the allocations would do. */
  lemma DefinedKept(env: seq<string>, name: string, value: string, mallocOk: bool, putOk: bool, other: string)
    requires name != "" && '=' !in name && Get(env, name).Some?
    ensures var r := Set(env, Some(name), Some(value), false, mallocOk, putOk);
      r.1 == 0 && Get(r.0, other) == Get(env, other) && Definitions(r.0, other) == Definitions(env, other)
  {
  }

  /** The call fails exactly when the arguments are bad, or something was to be set and there was no memory. */
  lemma FailsExactly(env: seq<string>, name: Option<string>, value: Option<string>, overwrite: bool, mallocOk: bool, putOk: bool)
    ensures Set(env, name, value, overwrite, mallocOk, putOk).1 != 0 <==>
      name.None? || name.value == "" || '=' in name.value || value.None?
      || ((overwrite || Get(env, name.value).None?) && !(mallocOk && putOk))
    ensures Set(env, name, value, overwrite, mallocOk, putOk).1 in {0, -1}
  {
  }

  /** putenv() defines the name of the new entry, in place of its first definition if there is one, and leaves all others. */
  lemma {:induction false} PutDefines(env: seq<string>, name: string, value: string, other: string)
    requires '=' !in name && '=' !in other
    ensures var r := Put(env, name + "=" + value);
      && Get(r, other) == (if other == name then Some(value) else Get(env, other))
      && Definitions(r, other) == (if other == name && Definitions(env, name) == 0 then 1 else Definitions(env, other))
  {
    var es := name + "=" + value;
    NewEntry(name, value);
    MatchesKey(es, other);
    if env == [] {
      AppendedGet([], es, other);
      assert [] + [es] == [es];
      assert Definitions([es], other) == (if other == name then 1 else 0) + Definitions([], other);
    } else {
      MatchesKey(env[0], name);
      MatchesKey(env[0], other);
      PutDefines(env[1..], name, value, other);
      DefinedMeans(env, name);
      if Key(env[0]) == Key(es) {
        assert ([es] + env[1..])[1..] == env[1..];
      } else {
        assert ([env[0]] + Put(env[1..], es))[1..] == Put(env[1..], es);
      }
      assert es[|name| + 1..] == value;
    }
  }

  /** Setting a name and removing it again leaves what removing it would have left. */
  lemma SetThenUnset(env: seq<string>, name: string, value: string)
    requires name != "" && '=' !in name
    ensures Unset(Set(env, Some(name), Some(value), true, true, true).0, name) == Unset(env, name)
  {
    var es := name + "=" + value;
    var kept := Unset(env, name);
    NewEntry(name, value);
    UnsetDefinitions(env, name, name);
    PutNew(kept, es, name);
    DefinedMeans(kept, name);
    UnsetConcat(kept, [es], name);
    assert Unset([es], name) == Unset([], name);
  }

  lemma {:induction false} UnsetConcat(a: seq<string>, b: seq<string>, name: string)
    ensures Unset(a + b, name) == Unset(a, name) + Unset(b, name)
  {
    if a == [] {
      assert a + b == b;
    } else {
      assert (a + b)[1..] == a[1..] + b;
      UnsetConcat(a[1..], b, name);
    }
  }

  /** What one more entry means for the loop: it is kept, or taking it out changes nothing of what should remain. */
  lemma UnsetAt(env: seq<string>, i: nat, name: string)
    requires i < |env|
    ensures if Key(env[i]) == Some(name) then Unset(env[..i] + env[i + 1..], name) == Unset(env, name) && env[..i] == (env[..i] + env[i + 1..])[..i]
            else Unset(env[..i], name) == env[..i] ==> Unset(env[..i + 1], name) == env[..i + 1]
  {
    assert env == env[..i] + ([env[i]] + env[i + 1..]) && env[..i + 1] == env[..i] + [env[i]];
    assert ([env[i]] + env[i + 1..])[1..] == env[i + 1..];
    assert Unset([env[i]], name) == if Key(env[i]) == Some(name) then [] else [env[i]];
    UnsetConcat(env[..i], [env[i]] + env[i + 1..], name);
    UnsetConcat(env[..i], [env[i]], name);
    UnsetConcat(env[..i], env[i + 1..], name);
  }

  /**
   POSIX.1-2008 promises that a setenv() that fails leaves the environment
   unchanged. This one does so if and only if the arguments are bad or the name
   was not defined: otherwise its definitions have been removed by then.
   */
  lemma FailureUnchanged(env: seq<string>, name: Option<string>, value: Option<string>, overwrite: bool, mallocOk: bool, putOk: bool)
    ensures var r := Set(env, name, value, overwrite, mallocOk, putOk);
      r.1 == -1 ==> (r.0 == env <==>
        name.None? || name.value == "" || '=' in name.value || value.None? || Get(env, name.value).None?)
  {
    if !BadArguments(name, value) { DefinedMeans(env, name.value); }
  }

  // ----- the calls -----

  /** A NULL is found in the array. */
  ghost predicate Terminated(entries: seq<Option<string>>) {
    exists k :: 0 <= k < |entries| && entries[k].None?
  }

  /** The entries before the first NULL. */
  function Strings(entries: seq<Option<string>>): (r: seq<string>)
    ensures |r| <= |entries| && forall i :: 0 <= i < |r| ==> entries[i] == Some(r[i])
    ensures |r| < |entries| ==> entries[|r|].None?
  {
    if entries == [] || entries[0].None? then [] else [entries[0].value] + Strings(entries[1..])
  }

  lemma {:induction false} StringsAre(entries: seq<Option<string>>, env: seq<string>)
    requires |env| < |entries| && entries[|env|].None? && forall i :: 0 <= i < |env| ==> entries[i] == Some(env[i])
    ensures Strings(entries) == env
  {
  }

  /** Every entry from `ep` up to the NULL has taken its successor's place. */
  ghost predicate ShiftedBack(entries: seq<Option<string>>, after: seq<Option<string>>, ep: nat, n: nat) {
    && ep < n < |entries| == |after|
    && (forall k :: 0 <= k < ep ==> after[k] == entries[k])
    && (forall k :: ep <= k < n ==> after[k] == entries[k + 1])
  }

  lemma ShiftedAll(entries: seq<Option<string>>, after: seq<Option<string>>, ep: nat, n: nat)
    requires ep < n < |entries| == |after|
    requires forall k :: 0 <= k < ep ==> after[k] == entries[k]
    requires forall k :: ep <= k < n ==> after[k] == entries[k + 1]
    ensures ShiftedBack(entries, after, ep, n)
  {
  }

  lemma StringsEnd(entries: seq<Option<string>>)
    requires Terminated(entries)
    ensures var n := |Strings(entries)|; n < |entries| && entries[n].None? && forall k :: 0 <= k < n ==> entries[k].Some?
  {
    var env := Strings(entries);
    assert forall k :: 0 <= k < |env| ==> entries[k] == Some(env[k]);
  }

  lemma StringsShifted(entries: seq<Option<string>>, after: seq<Option<string>>, ep: nat)
    requires ShiftedBack(entries, after, ep, |Strings(entries)|)
    ensures Terminated(after)
    ensures Strings(after) == Strings(entries)[..ep] + Strings(entries)[ep + 1..]
  {
    hide Strings;
    var env := Strings(entries);
    var left := env[..ep] + env[ep + 1..];
    forall k | 0 <= k < |left| ensures after[k] == Some(left[k]) {
      assert left[k] == if k < ep then env[k] else env[k + 1];
    }
    assert after[|left|].None?;
    StringsAre(after, left);
  }

  lemma {:induction false} PutAt(env: seq<string>, es: string, n: nat)
    requires n <= |env| && (forall i :: 0 <= i < n ==> Key(env[i]) != Key(es)) && (n < |env| ==> Key(env[n]) == Key(es))
    ensures Put(env, es) == if n < |env| then env[n := es] else env + [es]
  {
    if n > 0 { PutAt(env[1..], es, n - 1); }
  }

  /** A larger array with one more entry before the NULL. */
  method Extended(environ: array<Option<string>>, n: nat, es: string) returns (bigger: array<Option<string>>)
    requires n <= environ.Length
    ensures fresh(bigger) && bigger[..] == environ[..n] + [Some(es), None]
  {
    bigger := new Option<string>[n + 2](_ => None);
    for i := 0 to n
      invariant bigger[..i] == environ[..i] && forall k :: i <= k < n + 2 ==> bigger[k] == None
    {
      bigger[i] := environ[i];
    }
    bigger[n] := Some(es);
  }

  class Environment {
    var environ: array<Option<string>>

    ghost predicate Valid()
      reads this, environ
    {
      Terminated(environ[..])
    }

    ghost function Env(): seq<string>
      reads this, environ
    {
      Strings(environ[..])
    }

    method Unsetenv(name: Option<string>) returns (status: int)
      requires Valid()
      modifies environ
      ensures Valid() && environ.Length == old(environ.Length)
      ensures if name.None? || name.value == "" || '=' in name.value then status == -1 && Env() == old(Env())
              else status == 0 && Env() == Unset(old(Env()), name.value)
    {
      if name.None? || name.value == "" || '=' in name.value { return -1; }
      var ep := 0;
      while environ[ep].Some?
        invariant Valid() && 0 <= ep <= |Env()|
        invariant Unset(Env()[..ep], name.value) == Env()[..ep]
        invariant Unset(Env(), name.value) == Unset(old(Env()), name.value)
        decreases |Env()| - ep
      {
        MatchesKey(Env()[ep], name.value);
        UnsetAt(Env(), ep, name.value);
        if Matches(environ[ep].value, name.value) {
          ShiftBack(ep);
        } else {
          ep := ep + 1;
        }
      }
      assert Env()[..ep] == Env();
      return 0;
    }

    /** Shifts everything after entry `ep` back by one. */
    method ShiftBack(ep: nat)
      requires Valid() && ep < |Env()|
      modifies environ
      ensures Valid() && Env() == old(Env())[..ep] + old(Env())[ep + 1..]
    {
      hide Strings; hide Terminated; hide ShiftedBack;
      ghost var entries, env := environ[..], Env();
      StringsEnd(entries);
      var sp := ep;
      while environ[sp].Some?
        invariant ep <= sp <= |env| < environ.Length
        invariant forall k :: ep <= k < sp ==> environ[k] == entries[k + 1]
        invariant forall k :: 0 <= k < environ.Length && !(ep <= k < sp) ==> environ[k] == entries[k]
        decreases |env| - sp
      {
        environ[sp] := environ[sp + 1];
        sp := sp + 1;
      }
      ShiftedAll(entries, environ[..], ep, |env|);
      StringsShifted(entries, environ[..], ep);
    }

    method Getenv(name: string) returns (value: Option<string>)
      requires Valid()
      ensures value == Get(Env(), name)
    {
      var i := 0;
      while environ[i].Some?
        invariant 0 <= i <= |Env()| && Get(Env(), name) == Get(Env()[i..], name)
        decreases |Env()| - i
      {
        assert Env()[i..][0] == environ[i].value && Env()[i..][1..] == Env()[i + 1..];
        if Matches(environ[i].value, name) { return Some(environ[i].value[|name| + 1..]); }
        i := i + 1;
      }
      assert Env()[i..] == [];
      return None;
    }

    /** putenv(): in place, or in a larger array when the name is new; `ok` is false when there is no memory for that. */
    method Putenv(es: string, ok: bool) returns (status: int)
      requires Valid()
      modifies this, environ
      ensures Valid() && (environ == old(environ) || fresh(environ))
      ensures if !ok then status == -1 && Env() == old(Env()) else status == 0 && Env() == Put(old(Env()), es)
    {
      if !ok { return -1; }
      var n := 0;
      ghost var env := Env();
      while environ[n].Some?
        invariant 0 <= n <= |env| && environ == old(environ) && environ[..] == old(environ[..])
        invariant forall i :: 0 <= i < n ==> Key(env[i]) != Key(es)
        decreases |env| - n
      {
        if Key(environ[n].value) == Key(es) {
          environ[n] := Some(es);
          PutAt(env, es, n);
          StringsAre(environ[..], env[n := es]);
          return 0;
        }
        n := n + 1;
      }
      var bigger := Extended(environ, n, es);
      environ := bigger;
      PutAt(env, es, n);
      StringsAre(environ[..], env + [es]);
      return 0;
    }

    method Setenv(name: Option<string>, value: Option<string>, overwrite: bool, mallocOk: bool, putOk: bool) returns (status: int)
      requires Valid()
      modifies this, environ
      ensures Valid() && (environ == old(environ) || fresh(environ))
      ensures (Env(), status) == Set(old(Env()), name, value, overwrite, mallocOk, putOk)
    {
      if name.None? || name.value == "" || '=' in name.value || value.None? { return -1; }
      var found := Getenv(name.value);
      if found.Some? && !overwrite { return 0; }
      var _ := Unsetenv(name);
      if !mallocOk { return -1; }
      var es := name.value + "=" + value.value;
      status := Putenv(es, putOk);
    }
  }
}
