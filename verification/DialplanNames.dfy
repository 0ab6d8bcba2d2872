/** Renaming an extension through the name indexes: one index over all contexts, in which the extension added last
    under a name hides the others, and one index per context. */
module DialplanNames {
  import opened DialplanRuns
  import opened DialplanSteps
  import opened DialplanTree


  /** `table` and `cached` give the name of every extension by id, in the database and in its object. */
  datatype Names = Names(
    table: map<int, string>, cached: map<int, string>, home: map<int, int>,
    global: map<string, int>, local: map<int, map<string, int>>)

  function LocalOf(local: map<int, map<string, int>>, context: int): map<string, int> {
    if context in local then local[context] else map[]
  }

  /** One call of Extensions.Rename: the extension that the index leads to, if any, is renamed and filed under its new
      name. */
  function Found(index: map<string, int>, oldName: string): set<int> {
    if oldName in index then {index[oldName]} else {}
  }

  function Refiled(index: map<string, int>, oldName: string, newName: string): map<string, int> {
    if oldName in index then index[newName := index[oldName]] - {oldName} else index
  }

  function WithName(cached: map<int, string>, hit: set<int>, newName: string): map<int, string> {
    map i | i in cached.Keys + hit :: if i in hit then newName else cached[i]
  }

  /** The name under which the context's index is searched: the extension's own name, which the first search may have
      changed. */
  function SecondName(n: Names, ext: int, newName: string): string
    requires ext in n.cached
  {
    if ext in Found(n.global, n.cached[ext]) then newName else n.cached[ext]
  }

  /** The objects that a rename of `ext` gives the new name. */
  function Hit(n: Names, ext: int, newName: string): set<int>
    requires ext in n.cached && ext in n.home
  {
    Found(n.global, n.cached[ext]) + Found(LocalOf(n.local, n.home[ext]), SecondName(n, ext, newName))
  }

  function RenamedNames(n: Names, ext: int, newName: string): Names
    requires ext in n.cached && ext in n.home
  {
    var context := n.home[ext];
    Names(n.table[ext := newName], WithName(n.cached, Hit(n, ext, newName), newName), n.home,
          Refiled(n.global, n.cached[ext], newName),
          n.local[context := Refiled(LocalOf(n.local, context), SecondName(n, ext, newName), newName)])
  }

  lemma SecondSearch(n: Names, ext: int, newName: string, cached: map<int, string>)
    requires ext in n.cached && cached == WithName(n.cached, Found(n.global, n.cached[ext]), newName)
    ensures ext in cached && cached[ext] == SecondName(n, ext, newName)
  {
  }

  lemma BothSearches(cached: map<int, string>, a: set<int>, b: set<int>, newName: string)
    ensures WithName(WithName(cached, a, newName), b, newName) == WithName(cached, a + b, newName)
  {
  }

  class Extensions {
    var table: map<int, string>
    var cached: map<int, string>
    var home: map<int, int>
    var global: map<string, int>
    var local: map<int, map<string, int>>

    function State(): Names
      reads this
    {
      Names(table, cached, home, global, local)
    }

    constructor ()
      ensures State() == Names(map[], map[], map[], map[], map[])
    {
      table, cached, home, global, local := map[], map[], map[], map[], map[];
    }

    /** SetContextExtension: the context's index refuses a name it holds; the index over all contexts does not. */
    method Add(ext: int, context: int, name: string, refused: bool) returns (ok: bool)
      modifies this
      ensures ok <==> name !in LocalOf(old(local), context) && !refused
      ensures !ok ==> State() == old(State())
      ensures ok ==> State() == Names(old(table)[ext := name], old(cached)[ext := name], old(home)[ext := context],
                                      old(global)[name := ext],
                                      old(local)[context := LocalOf(old(local), context)[name := ext]])
    {
      if name in LocalOf(local, context) || refused { return false; }
      table := table[ext := name];
      cached := cached[ext := name];
      home := home[ext := context];
      local := local[context := LocalOf(local, context)[name := ext]];
      global := global[name := ext];
      return true;
    }

    /** DeleteExtension. */
    method Remove(ext: int, refused: bool) returns (ok: bool)
      requires ext in cached && ext in home
      modifies this
      ensures ok <==> !refused
      ensures State() == if ok then RemovedNames(old(State()), ext) else old(State())
    {
      if refused { return false; }
      table := table - {ext};
      var name, context := cached[ext], home[ext];
      global := global - {name};
      local := local[context := LocalOf(local, context) - {name}];
      cached, home := cached - {ext}, home - {ext};
      return true;
    }

    /** Extensions.Rename on one index. */
    method RenameIn(byName: map<string, int>, oldName: string, newName: string) returns (index: map<string, int>)
      modifies this`cached
      ensures index == Refiled(byName, oldName, newName)
      ensures cached == WithName(old(cached), Found(byName, oldName), newName)
    {
      index := byName;
      if oldName !in index { return; }
      index := index[newName := index[oldName]];
      cached := cached[index[newName] := newName];
      index := index - {oldName};
    }

    /** RenameExtension: the check, the table, the index over all contexts, then the index of the context. */
    method Rename(ext: int, newName: string, refused: bool) returns (ok: bool)
      requires ext in cached && ext in home
      modifies this
      ensures ok <==> newName != "" && newName !in old(global) && !refused
      ensures State() == if ok then RenamedNames(old(State()), ext, newName) else old(State())
    {
      if newName == "" || newName in global || refused { return false; }
      ghost var n := State();
      table := table[ext := newName];
      global := RenameIn(global, cached[ext], newName);
      SecondSearch(n, ext, newName, cached);
      var context := home[ext];
      var index := RenameIn(LocalOf(local, context), cached[ext], newName);
      local := local[context := index];
      BothSearches(n.cached, Found(n.global, n.cached[ext]),
          Found(LocalOf(n.local, context), SecondName(n, ext, newName)), newName);
      return true;
    }
  }

  /** DeleteExtension: both indexes drop the name that the object has, wherever they lead. */
  function RemovedNames(n: Names, ext: int): Names
    requires ext in n.cached && ext in n.home
  {
    var name, c := n.cached[ext], n.home[ext];
    Names(n.table - {ext}, n.cached - {ext}, n.home - {ext}, n.global - {name},
        n.local[c := LocalOf(n.local, c) - {name}])
  }

  /** Objects and table agree about every name. */
  ghost predicate Agree(n: Names) {
    n.cached == n.table
  }

  /** After a rename names agree exactly when the indexes led to the extension itself and to no other one, but for
      objects that had the new name already. */
  lemma RenameAgreesIff(n: Names, ext: int, newName: string)
    requires Agree(n) && ext in n.cached && ext in n.home
    ensures Agree(RenamedNames(n, ext, newName)) <==>
              && (ext !in Hit(n, ext, newName) ==> n.cached[ext] == newName)
              && (forall i :: i in Hit(n, ext, newName) && i != ext ==> i in n.cached && n.cached[i] == newName)
  {
    var t := RenamedNames(n, ext, newName);
    if Agree(t) {
      forall i | i in Hit(n, ext, newName) && i != ext ensures i in n.cached && n.cached[i] == newName {
        assert i in t.cached && t.cached[i] == newName && t.table[i] == n.table[i];
      }
      if ext !in Hit(n, ext, newName) {
        assert t.cached[ext] == n.cached[ext] && t.table[ext] == newName;
      }
    }
    if (ext !in Hit(n, ext, newName) ==> n.cached[ext] == newName)
       && forall i :: i in Hit(n, ext, newName) && i != ext ==> i in n.cached && n.cached[i] == newName {
      assert forall i :: i in t.cached <==> i in t.table;
    }
  }

  /** Each context files exactly its own extensions, and the index over all contexts leads from a name to an extension
      that has it. Of two extensions with one name it holds the later one, and none once that name was deleted. */
  ghost predicate Filed(n: Names) {
    && n.cached.Keys == n.home.Keys
    && (forall c, name :: name in LocalOf(n.local, c) ==> IsFiled(n, c, name))
    && (forall i :: i in n.cached ==> HasFile(n, i))
    && (forall name :: name in n.global ==> LeadsRight(n, name))
  }

  ghost predicate LeadsRight(n: Names, name: string)
    requires name in n.global
  {
    n.global[name] in n.cached && n.cached[n.global[name]] == name
  }

  ghost predicate IsFiled(n: Names, c: int, name: string)
    requires name in LocalOf(n.local, c)
  {
    var i := LocalOf(n.local, c)[name];
    i in n.cached && i in n.home && n.home[i] == c && n.cached[i] == name
  }

  ghost predicate HasFile(n: Names, i: int)
    requires i in n.cached
  {
    i in n.home && n.cached[i] in LocalOf(n.local, n.home[i]) && LocalOf(n.local, n.home[i])[n.cached[i]] == i
  }

  lemma FiledHit(n: Names, ext: int, newName: string)
    requires Filed(n) && ext in n.cached && ext in n.home && newName !in n.global
    ensures var oldName := n.cached[ext];
            var hit := Hit(n, ext, newName);
            && (oldName !in n.global ==> hit == {ext})
            && (oldName in n.global && n.global[oldName] != ext ==> hit == {n.global[oldName], ext})
            && (oldName in n.global && n.global[oldName] == ext ==>
                  ext in hit && forall i :: i in hit && i != ext ==> i in n.cached && n.cached[i] == newName)
  {
    assert HasFile(n, ext);
    assert newName in LocalOf(n.local, n.home[ext]) ==> IsFiled(n, n.home[ext], newName);
  }

  /** While names are filed, a rename leaves objects and table agreeing exactly when the index over all contexts holds
      the extension itself or nothing under the old name: no extension of another context was added later under it. */
  lemma FiledRenameAgreesIff(n: Names, ext: int, newName: string)
    requires Agree(n) && Filed(n) && ext in n.cached && ext in n.home && newName !in n.global
    ensures Agree(RenamedNames(n, ext, newName)) <==> n.cached[ext] !in n.global || n.global[n.cached[ext]] == ext
  {
    FiledHit(n, ext, newName);
    RenameAgreesIff(n, ext, newName);
    if n.cached[ext] in n.global && n.global[n.cached[ext]] != ext {
      assert LeadsRight(n, n.cached[ext]);
      assert n.global[n.cached[ext]] in Hit(n, ext, newName);
    }
  }

  /** And when the index leads to it, the context's own index keeps the old name, so that a new extension of that name
      is refused. */
  lemma OldNameStaysTaken(n: Names, ext: int, newName: string)
    requires Filed(n) && ext in n.cached && ext in n.home && newName !in n.global && n.cached[ext] in n.global
    ensures n.cached[ext] in LocalOf(RenamedNames(n, ext, newName).local, n.home[ext]) <==>
            n.global[n.cached[ext]] == ext
  {
    assert HasFile(n, ext) && n.cached[ext] != newName;
    assert newName in LocalOf(n.local, n.home[ext]) ==> IsFiled(n, n.home[ext], newName);
  }

  /** Adding extensions keeps names filed, whatever other contexts hold. */
  lemma AddKeepsFiled(n: Names, ext: int, context: int, name: string)
    requires Filed(n) && ext !in n.cached && name !in LocalOf(n.local, context)
    ensures Filed(Names(n.table[ext := name], n.cached[ext := name], n.home[ext := context], n.global[name := ext],
                        n.local[context := LocalOf(n.local, context)[name := ext]]))
  {
    var t := Names(n.table[ext := name], n.cached[ext := name], n.home[ext := context], n.global[name := ext],
                   n.local[context := LocalOf(n.local, context)[name := ext]]);
    forall c, x | x in LocalOf(t.local, c) ensures IsFiled(t, c, x) {
      if c != context || x != name { assert IsFiled(n, c, x); }
    }
    forall i | i in t.cached ensures HasFile(t, i) {
      if i != ext { assert HasFile(n, i); }
    }
    forall x | x in t.global ensures LeadsRight(t, x) {
      if x != name { assert LeadsRight(n, x); }
    }
  }

  /** So does deleting one, although the index over all contexts may lose the name of another one. */
  lemma RemoveKeepsFiled(n: Names, ext: int)
    requires Filed(n) && ext in n.cached && ext in n.home
    ensures Filed(RemovedNames(n, ext))
  {
    var t, name := RemovedNames(n, ext), n.cached[ext];
    assert HasFile(n, ext);
    forall c, x | x in LocalOf(t.local, c) ensures IsFiled(t, c, x) {
      assert IsFiled(n, c, x);
    }
    forall i | i in t.cached ensures HasFile(t, i) {
      assert HasFile(n, i);
    }
    forall x | x in t.global ensures LeadsRight(t, x) {
      assert LeadsRight(n, x);
    }
  }

  /** A rename keeps names filed exactly when the index over all contexts does not hold the old name, and the context
      does not hold the new one. */
  lemma RenameKeepsFiledIff(n: Names, ext: int, newName: string)
    requires Filed(n) && ext in n.cached && ext in n.home && newName !in n.global
    ensures Filed(RenamedNames(n, ext, newName)) <==>
              n.cached[ext] !in n.global && newName !in LocalOf(n.local, n.home[ext])
  {
    FiledHit(n, ext, newName);
    assert HasFile(n, ext);
    if n.cached[ext] in n.global {
      IndexedRenameUnfiles(n, ext, newName);
    } else if newName in LocalOf(n.local, n.home[ext]) {
      TakenRenameUnfiles(n, ext, newName);
    } else {
      HiddenRenameFiles(n, ext, newName);
    }
  }

  lemma IndexedRenameUnfiles(n: Names, ext: int, newName: string)
    requires Filed(n) && ext in n.cached && ext in n.home && newName !in n.global && n.cached[ext] in n.global
    ensures !Filed(RenamedNames(n, ext, newName))
  {
    var oldName, t := n.cached[ext], RenamedNames(n, ext, newName);
    var g := n.global[oldName];
    assert LeadsRight(n, oldName) && HasFile(n, ext) && HasFile(n, g);
    assert newName in LocalOf(n.local, n.home[ext]) ==> IsFiled(n, n.home[ext], newName);
    assert oldName in LocalOf(t.local, n.home[g]) && LocalOf(t.local, n.home[g])[oldName] == g;
    assert t.cached[g] == newName;
    assert !IsFiled(t, n.home[g], oldName);
  }

  lemma TakenRenameUnfiles(n: Names, ext: int, newName: string)
    requires Filed(n) && ext in n.cached && ext in n.home && n.cached[ext] !in n.global
    requires newName in LocalOf(n.local, n.home[ext])
    ensures !Filed(RenamedNames(n, ext, newName))
  {
    var t, c := RenamedNames(n, ext, newName), n.home[ext];
    assert HasFile(n, ext) && IsFiled(n, c, newName);
    var i := LocalOf(n.local, c)[newName];
    assert i in t.cached && t.cached[i] == newName && t.home[i] == c;
    assert t.cached[ext] == newName && t.home[ext] == c;
    assert i != ext || newName !in LocalOf(t.local, c);
    assert !HasFile(t, i);
  }

  lemma HiddenRenameFiles(n: Names, ext: int, newName: string)
    requires Filed(n) && ext in n.cached && ext in n.home && newName !in n.global && n.cached[ext] !in n.global
    requires newName !in LocalOf(n.local, n.home[ext])
    ensures Filed(RenamedNames(n, ext, newName))
  {
    var t := RenamedNames(n, ext, newName);
    FiledHit(n, ext, newName);
    assert HasFile(n, ext);
    forall c, x | x in LocalOf(t.local, c) ensures IsFiled(t, c, x) {
      if c != n.home[ext] || x != newName { assert IsFiled(n, c, x); }
    }
    forall i | i in t.cached ensures HasFile(t, i) {
      if i != ext { assert HasFile(n, i); }
    }
    forall x | x in t.global ensures LeadsRight(t, x) {
      assert LeadsRight(n, x);
    }
  }

  // ----- the rename of the dialplan -----

  /** The extensions of the cache, with their names and contexts. */
  ghost predicate NamesOf(s: Cache, n: Names) {
    && n.cached.Keys == n.home.Keys
    && (forall i :: i in n.cached ==> NameOf(s, n, i))
    && (forall c, name :: name in LocalOf(n.local, c) ==> LocalOf(n.local, c)[name] in n.cached)
    && (forall name :: name in n.global ==> n.global[name] in n.cached)
  }

  ghost predicate NameOf(s: Cache, n: Names, i: int)
    requires i in n.cached && i in n.home
  {
    var k := Key(Ext, i);
    && k in s.nodes && s.nodes[k].payload.ExtensionFields? && s.nodes[k].payload.name == n.cached[i]
    && s.nodes[k].parent == Key(Ctx, n.home[i])
  }

  function Keys(ids: set<int>): (keys: set<Key>)
    ensures forall i :: i in ids <==> Key(Ext, i) in keys
    ensures forall k :: k in keys ==> k.kind == Ext && k.id in ids
  {
    set i | i in ids :: Key(Ext, i)
  }

  lemma NamedIff(s: Cache, n: Names, i: int, newName: string)
    requires NamesOf(s, n) && i in n.cached
    ensures Key(Ext, i) in s.nodes && CtxOf(s.nodes, Key(Ext, i)) == Key(Ctx, n.home[i])
    ensures Named(s.nodes[Key(Ext, i)], newName) == s.nodes[Key(Ext, i)] <==> n.cached[i] == newName
  {
    assert NameOf(s, n, i);
  }

  lemma HitIsCached(s: Cache, n: Names, ext: int, newName: string)
    requires NamesOf(s, n) && ext in n.cached && ext in n.home
    ensures Hit(n, ext, newName) <= n.cached.Keys
  {
  }

  /** With the objects that the indexes lead to, the rename step of the dialplan is harmless exactly when it leaves all
      names agreeing, and it misnames a document exactly when one of them is shown by another context under another
      name. */
  lemma RenameStepIff(s: Cache, n: Names, ext: int, newName: string)
    requires NamesOf(s, n) && Agree(n) && ext in n.cached && ext in n.home
    ensures var e := Rename(Key(Ext, ext), newName, Keys(Hit(n, ext, newName)));
            && (Harmless(s, e) <==> Agree(RenamedNames(n, ext, newName)))
            && (Misnames(s, e) <==>
                  s.noProceed && exists i :: i in Hit(n, ext, newName) && Misnamed(s, n, ext, newName, i))
  {
    var k, hit := Key(Ext, ext), Hit(n, ext, newName);
    HitIsCached(s, n, ext, newName);
    RenameAgreesIff(n, ext, newName);
    NamedIff(s, n, ext, newName);
    forall i | i in hit
      ensures i in n.cached && Key(Ext, i) in s.nodes
      ensures Named(s.nodes[Key(Ext, i)], newName) == s.nodes[Key(Ext, i)] <==> n.cached[i] == newName
      ensures ShownElsewhere(s, k, newName, Key(Ext, i)) <==> Misnamed(s, n, ext, newName, i)
    {
      NamedIff(s, n, i, newName);
    }
    StepHarmlessIff(s, n, ext, newName, hit);
    if i :| i in hit && Misnamed(s, n, ext, newName, i) {
      assert Key(Ext, i) in Keys(hit) && ShownElsewhere(s, k, newName, Key(Ext, i));
    }
    if j :| j in Keys(hit) && ShownElsewhere(s, k, newName, j) {
      assert j == Key(Ext, j.id);
    }
  }

  predicate Misnamed(s: Cache, n: Names, ext: int, newName: string, i: int) {
    && i in n.cached && i in n.home && ext in n.home && Key(Ext, i) in s.nodes
    && s.nodes[Key(Ext, i)].enabled && n.home[i] != n.home[ext] && n.cached[i] != newName
  }

  lemma StepHarmlessIff(s: Cache, n: Names, ext: int, newName: string, hit: set<int>)
    requires NamesOf(s, n) && ext in n.cached && hit <= n.cached.Keys
    ensures Harmless(s, Rename(Key(Ext, ext), newName, Keys(hit))) <==>
              && (ext !in hit ==> n.cached[ext] == newName)
              && (forall i :: i in hit && i != ext ==> n.cached[i] == newName)
  {
    NamedIff(s, n, ext, newName);
    if Harmless(s, Rename(Key(Ext, ext), newName, Keys(hit))) {
      forall i | i in hit && i != ext ensures n.cached[i] == newName {
        NamedIff(s, n, i, newName);
        assert Key(Ext, i) in Keys(hit);
      }
    }
    if forall i :: i in hit && i != ext ==> n.cached[i] == newName {
      forall j | j in Keys(hit) && j != Key(Ext, ext) && j in s.nodes ensures Named(s.nodes[j], newName) == s.nodes[j] {
        assert j == Key(Ext, j.id);
        NamedIff(s, n, j.id, newName);
      }
    }
  }
}
