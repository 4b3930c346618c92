/** The table of constants: entries are added once and never changed, and are found by name or, when
    case-insensitive, by the lower-case name. */
module Constants {

  datatype Entry<V> = Entry(value: V, caseSensitive: bool)

  type Table<V> = map<string, Entry<V>>

  function LowerChar(c: char): char { if 'A' <= c <= 'Z' then c - 'A' + 'a' else c }

  function Lower(s: string): (r: string)
    ensures |r| == |s| && forall i :: 0 <= i < |s| ==> r[i] == LowerChar(s[i])
  {
    seq(|s|, i requires 0 <= i < |s| => LowerChar(s[i]))
  }

  const HALT_OFFSET: string := "__COMPILER_HALT_OFFSET__"

  function LastSlash(s: string): (r: int)
    ensures -1 <= r < |s| && (r >= 0 ==> s[r] == '\\') && forall i :: r < i < |s| ==> s[i] != '\\'
  {
    if s == [] then -1
    else if s[|s| - 1] == '\\' then |s| - 1
    else LastSlash(s[..|s| - 1])
  }

  /** The key under which a constant is entered: lower case if it is case-insensitive, else with its
      namespace in lower case. */
  function Key(name: string, caseSensitive: bool): string
  {
    if !caseSensitive then Lower(name)
    else
      var k := LastSlash(name);
      if k < 0 then name else Lower(name[..k]) + name[k..]
  }

  /** zend_register_constant, described by RegisterLookup and RegisteredIsFound. */
  function Register<V>(t: Table<V>, name: string, value: V, caseSensitive: bool): (bool, Table<V>)
  {
    var k := Key(name, caseSensitive);
    if k == HALT_OFFSET || k in t then (false, t) else (true, t[k := Entry(value, caseSensitive)])
  }

  datatype Found<V> = Found(value: V) | Missing

  /** zend_get_constant. */
  function Lookup<V>(t: Table<V>, name: string): Found<V>
  {
    if name in t then Found(t[name].value)
    else if Lower(name) in t && !t[Lower(name)].caseSensitive then Found(t[Lower(name)].value)
    else Missing
  }

  /** The name without a leading separator. */
  function Bare(name: string): string { if name != [] && name[0] == '\\' then name[1..] else name }

  /** zend_get_constant_ex for constants outside classes: with the namespace in lower case, and for an
      unqualified name in a namespace then without the namespace. */
  function Find<V>(t: Table<V>, name: string, unqualified: bool): Found<V>
  {
    var n := Bare(name);
    var f := Lookup(t, Key(n, true));
    if f.Found? || !unqualified || LastSlash(n) < 0 then f else Lookup(t, n[LastSlash(n) + 1..])
  }

  /** Registration is refused exactly for a known key and the reserved name. Afterwards exactly the
      key itself and, for a case-insensitive constant, the spellings of it that are not entered
      themselves, are read as the new value; every other name is read as before. */
  lemma RegisterLookup<V>(t: Table<V>, name: string, value: V, caseSensitive: bool, other: string)
    ensures var r, k := Register(t, name, value, caseSensitive), Key(name, caseSensitive);
            && (r.0 <==> k !in t && k != HALT_OFFSET)
            && var hit := other == k || (!caseSensitive && other !in t && Lower(other) == Lower(name));
               Lookup(r.1, other) == if r.0 && hit then Found(value) else Lookup(t, other)
  {
  }

  /** Whether a registered constant is found under the name it was registered with. Registration keeps
      a leading separator and the search skips it, so with one the search does not even see the new
      entry; without one the constant is found, unless it is case-insensitive and that spelling is
      already entered with another value. */
  lemma RegisteredIsFound<V>(t: Table<V>, name: string, value: V, caseSensitive: bool, unqualified: bool)
    requires Register(t, name, value, caseSensitive).0
    ensures var own := Key(name, true);
            Find(Register(t, name, value, caseSensitive).1, name, unqualified) == Found(value)
            <==> if Bare(name) == name then caseSensitive || own !in t || t[own].value == value
                 else Find(t, name, unqualified) == Found(value)
  {
    if Bare(name) == name {
      LowerKey(name);
      RegisterLookup(t, name, value, caseSensitive, Key(name, true));
    } else {
      SeparatorHides(t, name, value, caseSensitive, unqualified);
    }
  }

  /** A name with a leading separator reads after its registration what it read before. */
  lemma SeparatorHides<V>(t: Table<V>, name: string, value: V, caseSensitive: bool, unqualified: bool)
    requires Bare(name) != name
    ensures Find(Register(t, name, value, caseSensitive).1, name, unqualified) == Find(t, name, unqualified)
  {
    hide Lookup, Register;
    var n := Bare(name);
    KeyLength(name, caseSensitive);
    KeyLength(n, true);
    RegisterLookup(t, name, value, caseSensitive, Key(n, true));
    if LastSlash(n) >= 0 { RegisterLookup(t, name, value, caseSensitive, n[LastSlash(n) + 1..]); }
  }

  lemma KeyLength(name: string, caseSensitive: bool)
    ensures |Key(name, caseSensitive)| == |name|
  {
  }

  /** Every registered name can still be searched for, with one more separator in front of it. */
  lemma FoundBehindSeparator<V>(t: Table<V>, name: string, value: V, caseSensitive: bool, unqualified: bool)
    requires Register(t, name, value, caseSensitive).0
    ensures var own := Key(name, true);
            Find(Register(t, name, value, caseSensitive).1, "\\" + name, unqualified) == Found(value)
            <==> caseSensitive || own !in t || t[own].value == value
  {
    assert Bare("\\" + name) == name;
    LowerKey(name);
    RegisterLookup(t, name, value, caseSensitive, Key(name, true));
  }

  /** The failing case exists: such a constant is entered and not found. */
  lemma SeparatorLost()
    ensures var t: Table<int> := map[];
            var r := Register(t, "\\X", 1, true);
            r.0 && Find(r.1, "\\X", false) == Missing
  {
    var t: Table<int> := map[];
    KeyLength("\\X", true);
    assert |HALT_OFFSET| != 2;
    SeparatorHides(t, "\\X", 1, true, false);
  }

  lemma LowerKey(name: string)
    ensures Lower(Key(name, true)) == Lower(name)
  {
    var k := LastSlash(name);
    if k >= 0 {
      var own := Lower(name[..k]) + name[k..];
      forall i | 0 <= i < |name| ensures LowerChar(own[i]) == LowerChar(name[i]) { }
    }
  }

  /** The same letter, perhaps in the other case. */
  predicate SameLetter(c: char, d: char)
  {
    c == d || ('A' <= c <= 'Z' && d as int == c as int + 32) || ('A' <= d <= 'Z' && c as int == d as int + 32)
  }

  /** Two names that differ in the case of letters only, and in front of their last separator only. */
  ghost predicate SameButNamespace(m: string, n: string)
  {
    && |m| == |n|
    && forall i :: 0 <= i < |m| ==> m[i] == n[i] || (SameLetter(m[i], n[i]) && exists j :: i < j < |m| && m[j] == '\\')
  }

  lemma LowerSame(c: char, d: char)
    ensures LowerChar(c) == LowerChar(d) <==> SameLetter(c, d)
    ensures SameLetter('\\', d) <==> d == '\\'
  {
  }

  lemma KeyAt(m: string)
    ensures |Key(m, true)| == |m|
    ensures forall i :: 0 <= i < |m| ==> Key(m, true)[i] == if i < LastSlash(m) then LowerChar(m[i]) else m[i]
  {
  }

  /** The last separator stands at the same place. */
  lemma SameSlash(m: string, n: string)
    requires |m| == |n| && forall i :: 0 <= i < |m| ==> (m[i] == '\\' <==> n[i] == '\\')
    ensures LastSlash(m) == LastSlash(n)
  {
    var j, k := LastSlash(m), LastSlash(n);
    assert j >= k && k >= j;
  }

  /** Names share a key exactly if they differ only in the case of the namespace. */
  lemma SameKeyIff(m: string, n: string)
    ensures Key(m, true) == Key(n, true) <==> SameButNamespace(m, n)
  {
    KeyAt(m);
    KeyAt(n);
    forall c: char, d: char ensures LowerChar(c) == LowerChar(d) <==> SameLetter(c, d) { LowerSame(c, d); }
    forall d: char ensures LowerChar(d) == '\\' <==> d == '\\' { }
    hide LowerChar, SameLetter, Key;
    if Key(m, true) == Key(n, true) {
      forall i | 0 <= i < |m| ensures m[i] == '\\' <==> n[i] == '\\' { assert Key(m, true)[i] == Key(n, true)[i]; }
      SameSlash(m, n);
      forall i | 0 <= i < |m| && m[i] != n[i] ensures SameLetter(m[i], n[i]) && i < LastSlash(m) {
        assert Key(m, true)[i] == Key(n, true)[i];
      }
    }
    if SameButNamespace(m, n) {
      forall i | 0 <= i < |m| ensures LowerChar(m[i]) == LowerChar(n[i]) { }
      SameSlash(m, n);
      assert Key(m, true) == Key(n, true);
    }
  }

  /** They read the same constant. */
  lemma NamespaceCase<V>(t: Table<V>, m: string, n: string, unqualified: bool)
    requires SameButNamespace(m, n)
    ensures Find(t, m, unqualified) == Find(t, n, unqualified)
  {
    hide Lookup, Key, LastSlash;
    var b, c := Bare(m), Bare(n);
    assert SameButNamespace(b, c) by { SameBare(m, n); }
    SameKeyIff(b, c);
    SameBase(b, c);
  }

  /** A case-sensitive constant makes exactly those names found, of the ones that were not. */
  lemma NewlyFound<V>(t: Table<V>, m: string, v: V, n: string)
    requires Register(t, m, v, true).0 && Bare(n) == n && Find(t, n, false) == Missing
    ensures Find(Register(t, m, v, true).1, n, false).Found? <==> SameButNamespace(m, n)
  {
    hide Lookup, Register;
    RegisterLookup(t, m, v, true, Key(n, true));
    SameKeyIff(m, n);
  }

  lemma SameBare(m: string, n: string)
    requires SameButNamespace(m, n)
    ensures SameButNamespace(Bare(m), Bare(n))
  {
    hide SameLetter;
    if m != "" {
      SlashAlike(m, n, 0);
      if m[0] == '\\' {
        forall i | 0 <= i < |m| - 1
          ensures m[1..][i] == n[1..][i] || (SameLetter(m[1..][i], n[1..][i]) && exists j :: i < j < |m| - 1 && m[1..][j] == '\\')
        {
          if m[i + 1] != n[i + 1] {
            var j :| i + 1 < j < |m| && m[j] == '\\';
            assert m[1..][j - 1] == '\\';
          }
        }
      }
    }
  }

  lemma SlashAlike(m: string, n: string, i: nat)
    requires SameButNamespace(m, n) && i < |m|
    ensures m[i] == '\\' <==> n[i] == '\\'
  {
    LowerSame(m[i], n[i]);
  }

  lemma SameBase(m: string, n: string)
    requires SameButNamespace(m, n)
    ensures LastSlash(m) == LastSlash(n) && m[LastSlash(m) + 1..] == n[LastSlash(n) + 1..]
  {
    forall i | 0 <= i < |m| ensures m[i] == '\\' <==> n[i] == '\\' { SlashAlike(m, n, i); }
    SameSlash(m, n);
    var k := LastSlash(m);
    assert forall i :: k < i < |m| ==> m[i] == n[i];
  }

  /** `t'` arises from `t` by registrations. */
  ghost predicate Grown<V>(t: Table<V>, t': Table<V>)
  {
    forall k :: k in t ==> k in t' && t'[k] == t[k]
  }

  /** Whatever is registered, in whatever order, only adds to the table. */
  lemma {:induction false} RegisterGrows<V>(t: Table<V>, names: seq<string>, values: seq<V>, flags: seq<bool>)
    requires |names| == |values| == |flags|
    ensures Grown(t, RegisterAll(t, names, values, flags))
    decreases |names|
  {
    if names != [] { RegisterGrows(Register(t, names[0], values[0], flags[0]).1, names[1..], values[1..], flags[1..]); }
  }

  function RegisterAll<V>(t: Table<V>, names: seq<string>, values: seq<V>, flags: seq<bool>): Table<V>
    requires |names| == |values| == |flags|
    decreases |names|
  {
    if names == [] then t else RegisterAll(Register(t, names[0], values[0], flags[0]).1, names[1..], values[1..], flags[1..])
  }

  /** A constant that is found under its own spelling is found with the same value for ever; one that
      is found in lower case keeps its value exactly as long as its own spelling is not entered with
      another one. */
  lemma LookupStable<V>(t: Table<V>, t': Table<V>, name: string)
    requires Grown(t, t') && Lookup(t, name).Found?
    ensures Lookup(t', name) == Lookup(t, name) <==> name in t || name !in t' || t'[name].value == Lookup(t, name).value
  {
  }

  /** The exact condition for `name` to be read from `t'` as it was from `t`. */
  ghost predicate SameLookup<V>(t: Table<V>, t': Table<V>, name: string)
  {
    var f := Lookup(t, name);
    if f.Found? then name in t || name !in t' || t'[name].value == f.value
    else name !in t' && (Lower(name) in t' ==> t'[Lower(name)].caseSensitive)
  }

  lemma SameLookupIff<V>(t: Table<V>, t': Table<V>, name: string)
    requires Grown(t, t')
    ensures Lookup(t', name) == Lookup(t, name) <==> SameLookup(t, t', name)
    ensures Lookup(t, name).Found? ==> Lookup(t', name).Found?
  {
    if Lookup(t, name).Found? { LookupStable(t, t', name); }
  }

  /** The same for the search with a namespace: a name that fell back to the global constant must not
      have been entered in its namespace with another value. */
  ghost predicate SameFind<V>(t: Table<V>, t': Table<V>, name: string, unqualified: bool)
  {
    var n := Bare(name);
    var own, k := Key(n, true), LastSlash(n);
    if Lookup(t, own).Found? || !unqualified || k < 0 then SameLookup(t, t', own)
    else if SameLookup(t, t', own) then SameLookup(t, t', n[k + 1..])
    else Lookup(t', own) == Lookup(t, n[k + 1..])
  }

  lemma SameFindIff<V>(t: Table<V>, t': Table<V>, name: string, unqualified: bool)
    requires Grown(t, t')
    ensures Find(t', name, unqualified) == Find(t, name, unqualified) <==> SameFind(t, t', name, unqualified)
    ensures Find(t, name, unqualified).Found? ==> Find(t', name, unqualified).Found?
  {
    hide Lookup, SameLookup, Grown, Key, Bare;
    var n := Bare(name);
    SameLookupIff(t, t', Key(n, true));
    if LastSlash(n) >= 0 { SameLookupIff(t, t', n[LastSlash(n) + 1..]); }
  }

  /** The instability is real: a case-insensitive constant is shadowed by a later case-sensitive one. */
  lemma Shadowed()
    ensures var t0: Table<int> := map[];
            var t := Register(t0, "foo", 1, false).1;
            var r := Register(t, "FOO", 2, true);
            r.0 && Lookup(t, "FOO") == Found(1) && Lookup(r.1, "FOO") == Found(2)
  {
    var t0: Table<int> := map[];
    assert Lower("foo") == "foo" && Lower("FOO") == "foo";
    assert "FOO"[2] != "foo"[2];
    var t := Register(t0, "foo", 1, false).1;
    assert |HALT_OFFSET| != 3;
    assert LastSlash("FOO") == -1 by { assert forall i :: 0 <= i < 3 ==> "FOO"[i] != '\\'; }
    assert Key("FOO", true) == "FOO";
  }
}
