/** The scope chain of `Env`: each `Env` object is a dictionary plus a link
    to the enclosing one. The chain is a sequence of scopes, innermost
    first; a block pushes a scope at the front and pops it on exit. */
module Environment {
  import opened Values
  import opened Tokens
  import opened Failures

  type Scope = map<string, Value>
  type Env = seq<Scope>

  /** Scope `i` holds the nearest binding of `x`. */
  predicate DefinedAt(env: Env, x: string, i: int) {
    && 0 <= i < |env|
    && x in env[i]
    && forall j :: 0 <= j < i ==> x !in env[j]
  }

  /** Some scope of the chain binds `x`. */
  predicate Defined(env: Env, x: string) {
    exists i :: 0 <= i < |env| && x in env[i]
  }

  /** The message of an undefined read (with a period) and of an undefined
      assignment (without one). */
  function UndefinedRead(name: Token): RuntimeError {
    RuntimeError(name, "Undefined variable '" + name.lexeme + "'.")
  }

  function UndefinedAssign(name: Token): RuntimeError {
    RuntimeError(name, "Undefined variable '" + name.lexeme + "'")
  }

  /** `Define(name, value)`: install or overwrite the binding in the current
      scope; every other scope is left alone. */
  function Define(env: Env, x: string, v: Value): (r: Env)
    requires |env| > 0
    ensures |r| == |env|
    ensures DefinedAt(r, x, 0) && r[0][x] == v
    ensures r[0].Keys == env[0].Keys + {x}
    ensures forall y :: y in env[0] && y != x ==> r[0][y] == env[0][y]
    ensures forall i :: 1 <= i < |r| ==> r[i] == env[i]
  {
    [env[0][x := v]] + env[1..]
  }

  /** `Get(name)`: the value in the nearest scope that binds the name, or
      "Undefined variable 'x'." when none does. */
  function Get(env: Env, name: Token): (r: Outcome<Value>)
    ensures r.Ok? <==> Defined(env, name.lexeme)
    ensures forall i :: DefinedAt(env, name.lexeme, i) ==> r == Ok(env[i][name.lexeme])
    ensures !r.Ok? ==> r == Thrown(UndefinedRead(name))
  {
    if |env| == 0 then Thrown(UndefinedRead(name))
    else if name.lexeme in env[0] then Ok(env[0][name.lexeme])
    else
      var r := Get(env[1..], name);
      assert forall i :: DefinedAt(env, name.lexeme, i) ==> DefinedAt(env[1..], name.lexeme, i - 1);
      assert Defined(env[1..], name.lexeme) ==> Defined(env, name.lexeme);
      r
  }

  /** `Assign(name, value)` as written: the search succeeds exactly when
      `Get` would, but the hit calls `Dictionary.Add` on a key that is
      already present, which throws. So the chain is never updated: the
      outcome is a host crash when the name is bound, and "Undefined
      variable 'x'" (no period) otherwise. */
  function Assign(env: Env, name: Token, v: Value): (r: Outcome<Env>)
    ensures !r.Ok?
    ensures r.Crashed? <==> Defined(env, name.lexeme)
    ensures r.Crashed? ==> r.fault == DuplicateKey(name.lexeme)
    ensures r.Thrown? ==> r.error == UndefinedAssign(name)
  {
    if |env| == 0 then Thrown(UndefinedAssign(name))
    else if name.lexeme in env[0] then Crashed(DuplicateKey(name.lexeme))
    else
      var r := Assign(env[1..], name, v);
      assert Defined(env[1..], name.lexeme) ==> Defined(env, name.lexeme);
      r
  }

  /** Replacing scope `i` behind the innermost one is replacing scope
      `i - 1` of the outer chain. */
  lemma SpliceBehind(env: Env, i: nat, s: Scope)
    requires 1 <= i < |env|
    ensures [env[0]] + (env[1..][..i - 1] + [s] + env[1..][i..]) == env[..i] + [s] + env[i + 1..]
  {
    assert env[..i] == [env[0]] + env[1..][..i - 1];
    assert env[1..][i..] == env[i + 1..];
  }

  /** `Assign` as evidently intended (`Values[name] = value`): overwrite
      the nearest binding in place, never creating one. */
  function AssignCorrected(env: Env, name: Token, v: Value): (r: Outcome<Env>)
    ensures !r.Crashed?
    ensures r.Ok? <==> Defined(env, name.lexeme)
    ensures forall i :: DefinedAt(env, name.lexeme, i) ==>
      r == Ok(env[..i] + [env[i][name.lexeme := v]] + env[i + 1..])
    ensures r.Thrown? ==> r.error == UndefinedAssign(name)
  {
    if |env| == 0 then Thrown(UndefinedAssign(name))
    else if name.lexeme in env[0] then
      assert env[..0] == [];
      assert forall i :: DefinedAt(env, name.lexeme, i) ==> i == 0;
      assert env[..0] + [env[0][name.lexeme := v]] + env[1..] == [env[0][name.lexeme := v]] + env[1..];
      Ok([env[0][name.lexeme := v]] + env[1..])
    else
      match AssignCorrected(env[1..], name, v)
      case Ok(rest) =>
        assert forall i :: DefinedAt(env, name.lexeme, i) ==> DefinedAt(env[1..], name.lexeme, i - 1);
        forall i | DefinedAt(env, name.lexeme, i)
          ensures [env[0]] + (env[1..][..i - 1] + [env[i][name.lexeme := v]] + env[1..][i..])
                  == env[..i] + [env[i][name.lexeme := v]] + env[i + 1..]
        {
          SpliceBehind(env, i, env[i][name.lexeme := v]);
        }
        Ok([env[0]] + rest)
      case Thrown(e) =>
        assert Defined(env[1..], name.lexeme) ==> Defined(env, name.lexeme);
        Thrown(e)
  }

  /** Overwriting a bound name in one scope keeps every scope's names. */
  lemma UpdateKeepsNames(env: Env, k: int, x: string, v: Value)
    requires 0 <= k < |env| && x in env[k]
    ensures |env[..k] + [env[k][x := v]] + env[k + 1..]| == |env|
    ensures forall j :: 0 <= j < |env| ==> (env[..k] + [env[k][x := v]] + env[k + 1..])[j].Keys == env[j].Keys
  {
    var e' := env[..k] + [env[k][x := v]] + env[k + 1..];
    forall j | 0 <= j < |env| ensures e'[j].Keys == env[j].Keys {
      if j == k {
        assert e'[j] == env[k][x := v];
      } else if j < k {
        assert e'[j] == env[j];
      } else {
        assert e'[j] == env[j];
      }
    }
  }

  /** An assignment changes a value, never which names a scope binds. */
  lemma AssignCorrectedKeepsNames(env: Env, name: Token, v: Value)
    ensures AssignCorrected(env, name, v).Ok? ==>
      |AssignCorrected(env, name, v).value| == |env| &&
      forall j :: 0 <= j < |env| ==> AssignCorrected(env, name, v).value[j].Keys == env[j].Keys
  {
    var r := AssignCorrected(env, name, v);
    if r.Ok? {
      var x := name.lexeme;
      var i :| 0 <= i < |env| && x in env[i];
      var k := NearestScope(env, x, i);
      assert r == Ok(env[..k] + [env[k][x := v]] + env[k + 1..]);
      UpdateKeepsNames(env, k, x, v);
    }
  }

  /** If some scope binds `x`, a nearest one exists. */
  lemma NearestScope(env: Env, x: string, i: int) returns (k: int)
    requires 0 <= i < |env| && x in env[i]
    ensures DefinedAt(env, x, k) && k <= i
  {
    if j :| 0 <= j < i && x in env[j] {
      k := NearestScope(env, x, j);
    } else {
      k := i;
    }
  }

  /** Two chains that agree on which scopes bind `x` and on the nearest
      binding's value read `x` alike. */
  lemma GetAgrees(env: Env, env': Env, name: Token)
    requires |env| == |env'|
    requires forall j :: 0 <= j < |env| ==> (name.lexeme in env[j] <==> name.lexeme in env'[j])
    requires forall j :: DefinedAt(env, name.lexeme, j) ==> env'[j][name.lexeme] == env[j][name.lexeme]
    ensures Get(env', name) == Get(env, name)
  {
    var x := name.lexeme;
    if Defined(env, x) {
      var i :| 0 <= i < |env| && x in env[i];
      var k := NearestScope(env, x, i);
      assert DefinedAt(env', x, k);
    } else {
      assert !Defined(env', x);
    }
  }

  /** `Define` leaves every other name's bindings as they were. */
  lemma DefineKeepsOthers(env: Env, x: string, y: string, v: Value)
    requires |env| > 0 && x != y
    ensures forall j :: 0 <= j < |env| ==> (y in env[j] <==> y in Define(env, x, v)[j])
    ensures forall j :: 0 <= j < |env| && y in env[j] ==> Define(env, x, v)[j][y] == env[j][y]
  {
  }

  /** A read after `Define` sees the new value; other names read as before. */
  lemma GetAfterDefine(env: Env, name: Token, other: Token, v: Value)
    requires |env| > 0
    requires other.lexeme != name.lexeme
    ensures Get(Define(env, name.lexeme, v), name) == Ok(v)
    ensures Get(Define(env, name.lexeme, v), other) == Get(env, other)
  {
    var r := Define(env, name.lexeme, v);
    assert DefinedAt(r, name.lexeme, 0);
    DefineKeepsOthers(env, name.lexeme, other.lexeme, v);
    GetAgrees(env, r, other);
  }

  /** The chain with scope `i` replaced by `scope`. */
  lemma ReplaceScope(env: Env, i: int, scope: Scope)
    requires 0 <= i < |env|
    ensures |env[..i] + [scope] + env[i + 1..]| == |env|
    ensures (env[..i] + [scope] + env[i + 1..])[i] == scope
    ensures forall j :: 0 <= j < |env| && j != i ==> (env[..i] + [scope] + env[i + 1..])[j] == env[j]
  {
  }

  /** The corrected assignment is visible to the next read and changes no
      other name. */
  lemma AssignCorrectedThenGet(env: Env, name: Token, other: Token, v: Value)
    requires Defined(env, name.lexeme)
    requires other.lexeme != name.lexeme
    ensures AssignCorrected(env, name, v).Ok?
    ensures Get(AssignCorrected(env, name, v).value, name) == Ok(v)
    ensures Get(AssignCorrected(env, name, v).value, other) == Get(env, other)
  {
    var i0 :| 0 <= i0 < |env| && name.lexeme in env[i0];
    var i := NearestScope(env, name.lexeme, i0);
    var r := AssignCorrected(env, name, v).value;
    assert r == env[..i] + [env[i][name.lexeme := v]] + env[i + 1..];
    ReplaceScope(env, i, env[i][name.lexeme := v]);
    assert DefinedAt(r, name.lexeme, i);
    GetAgrees(env, r, other);
  }
}
