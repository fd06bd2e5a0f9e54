/** The module-level tap registry of `datatap/loading.py`: a name -> class dictionary, plus the
    `get_ident` class method that registration installs on the class, which every subclass then
    inherits. */
module Registry {
  import opened Errors

  /** The identity of a Python class object (its qualified name). */
  type ClassName = string

  /** `entries` is `DATATAP_REGISTRY`; `idents` records, per class object, the name that the
      `get_ident` installed on that very class by its most recent registration returns; `bases`
      records each class's base class (the taps use single inheritance). */
  datatype Registry = Registry(entries: map<string, ClassName>, idents: map<ClassName, string>,
                               bases: map<ClassName, ClassName>)

  /** The registry at import time, before any class is declared. */
  const Empty: Registry := Registry(map[], map[], map[])

  /** `class cls(base)`: declares `base` as the class `cls` inherits from. */
  function Declare(reg: Registry, cls: ClassName, base: ClassName): (r: Registry)
    ensures r.bases == reg.bases[cls := base]
    ensures r.entries == reg.entries && r.idents == reg.idents
  {
    reg.(bases := reg.bases[cls := base])
  }

  /** The method resolution order of `cls`: the class, its base, that one's base, and so on.
      Each step uses up one declaration, so a cyclic `bases` (which Python cannot build) also ends. */
  function Mro(bases: map<ClassName, ClassName>, cls: ClassName): (mro: seq<ClassName>)
    ensures |mro| > 0 && mro[0] == cls
    ensures forall k :: 0 <= k < |mro| - 1 ==> mro[k] in bases && mro[k + 1] == bases[mro[k]]
    decreases |bases|
  {
    if cls in bases then
      var rest := bases - {cls};
      assert |rest| < |bases| by {
        assert rest.Keys < bases.Keys;
        assert |rest.Keys| < |bases.Keys|;
      }
      var tail := Mro(rest, bases[cls]);
      assert forall k :: 0 <= k < |tail| - 1 ==> tail[k] in rest;
      [cls] + tail
    else [cls]
  }

  /** Attribute lookup along `mro`: the first class that itself holds a `get_ident`. */
  function Resolve(idents: map<ClassName, string>, mro: seq<ClassName>): (r: Result<string>)
    ensures r.Ok? <==> exists i :: 0 <= i < |mro| && mro[i] in idents
    ensures r.Ok? ==> exists i :: && 0 <= i < |mro| && mro[i] in idents && r.value == idents[mro[i]]
                                  && forall j :: 0 <= j < i ==> mro[j] !in idents
    ensures r.Err? ==> r.error == AttributeError("get_ident")
  {
    if |mro| == 0 then Err(AttributeError("get_ident"))
    else if mro[0] in idents then Ok(idents[mro[0]])
    else
      var r := Resolve(idents, mro[1..]);
      assert forall i :: 1 <= i < |mro| ==> mro[i] == mro[1..][i - 1];
      r
  }

  /** `lookup_datatap(name)`: a plain dictionary subscript. */
  function Lookup(reg: Registry, name: string): (r: Result<ClassName>)
    ensures r.Ok? <==> name in reg.entries
    ensures r.Ok? ==> r.value == reg.entries[name]
    ensures r.Err? ==> r.error == KeyError(name)
  {
    if name in reg.entries then Ok(reg.entries[name]) else Err(KeyError(name))
  }

  /** `cls.get_ident()`: the method is found on the nearest class of the resolution order that
      went through `register_datatap`, and returns the name it was registered under; a class with
      no registered ancestor raises AttributeError. */
  function GetIdent(reg: Registry, cls: ClassName): (r: Result<string>)
    ensures var mro := Mro(reg.bases, cls);
            r.Ok? <==> exists i :: 0 <= i < |mro| && mro[i] in reg.idents
    ensures var mro := Mro(reg.bases, cls);
            r.Ok? ==> exists i :: && 0 <= i < |mro| && mro[i] in reg.idents && r.value == reg.idents[mro[i]]
                                  && forall j :: 0 <= j < i ==> mro[j] !in reg.idents
    ensures cls in reg.idents ==> r == Ok(reg.idents[cls])
    ensures r.Err? ==> r.error == AttributeError("get_ident")
  {
    var r := Resolve(reg.idents, Mro(reg.bases, cls));
    assert r.Ok? ==> exists i :: 0 <= i < |Mro(reg.bases, cls)| && Mro(reg.bases, cls)[i] in reg.idents;
    r
  }

  /** Setting `get_ident` on `cls` changes the lookup only for an order that passes through `cls`
      before any other class holding the method. */
  lemma {:induction false} ResolveUpdate(idents: map<ClassName, string>, mro: seq<ClassName>, cls: ClassName, name: string)
    ensures cls !in mro ==> Resolve(idents[cls := name], mro) == Resolve(idents, mro)
    ensures forall i :: 0 <= i < |mro| && mro[i] == cls && (forall j :: 0 <= j < i ==> mro[j] !in idents) ==>
              Resolve(idents[cls := name], mro) == Ok(name)
    decreases |mro|
  {
    if |mro| > 0 {
      ResolveUpdate(idents, mro[1..], cls, name);
      forall i | 0 < i < |mro| && mro[i] == cls && (forall j :: 0 <= j < i ==> mro[j] !in idents)
        ensures Resolve(idents[cls := name], mro) == Ok(name)
      {
        assert mro[1..][i - 1] == cls;
        assert forall j :: 0 <= j < i - 1 ==> mro[1..][j] == mro[j + 1];
      }
    }
  }

  /** `register_datatap(name, cls)`: installs `get_ident` returning `name` on `cls`, then stores
      `cls` under `name`, replacing whatever was there. */
  function Register(reg: Registry, name: string, cls: ClassName): (r: Registry)
    ensures Lookup(r, name) == Ok(cls)
    ensures GetIdent(r, cls) == Ok(name)
    ensures forall other :: other != name ==> Lookup(r, other) == Lookup(reg, other)
    ensures forall c :: cls !in Mro(reg.bases, c) ==> GetIdent(r, c) == GetIdent(reg, c)
    ensures forall c :: (exists i :: && 0 <= i < |Mro(reg.bases, c)| && Mro(reg.bases, c)[i] == cls
                                     && forall j :: 0 <= j < i ==> Mro(reg.bases, c)[j] !in reg.idents) ==>
              GetIdent(r, c) == Ok(name)
    ensures r.bases == reg.bases
  {
    var r := Registry(reg.entries[name := cls], reg.idents[cls := name], reg.bases);
    forall c ensures cls !in Mro(reg.bases, c) ==> GetIdent(r, c) == GetIdent(reg, c)
    {
      ResolveUpdate(reg.idents, Mro(reg.bases, c), cls, name);
    }
    forall c | exists i :: && 0 <= i < |Mro(reg.bases, c)| && Mro(reg.bases, c)[i] == cls
                           && forall j :: 0 <= j < i ==> Mro(reg.bases, c)[j] !in reg.idents
      ensures GetIdent(r, c) == Ok(name)
    {
      ResolveUpdate(reg.idents, Mro(reg.bases, c), cls, name);
    }
    r
  }

  /** Re-registering a name replaces the class stored under it: the last registration wins. */
  lemma LastRegistrationWins(reg: Registry, name: string, first: ClassName, second: ClassName)
    ensures Lookup(Register(Register(reg, name, first), name, second), name) == Ok(second)
  {
  }

  /** `get_ident` lives on the class object, so registering one class under two names makes the
      class found under the first name report the second name as its ident. */
  lemma SharedClassReportsLatestName(reg: Registry, first: string, second: string, cls: ClassName)
    requires first != second
    ensures var r := Register(Register(reg, first, cls), second, cls);
            Lookup(r, first) == Ok(cls) && GetIdent(r, cls) == Ok(second)
  {
  }

  /** A subclass that is never registered itself inherits its base's `get_ident`: with
      `BufferedStreamDataTap(StreamDataTap)` and `register_datatap('Stream', StreamDataTap)`, the
      subclass reports 'Stream'. */
  lemma SubclassInheritsIdent(reg: Registry, name: string, base: ClassName, sub: ClassName)
    requires sub != base && sub !in reg.idents
    ensures GetIdent(Register(Declare(reg, sub, base), name, base), sub) == Ok(name)
  {
    var declared := Declare(reg, sub, base);
    var mro := Mro(declared.bases, sub);
    assert mro[1] == base;
    assert mro[0] !in declared.idents;
  }
}
