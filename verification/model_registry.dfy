/**
 * The models index: `initializeModels` lists the model files of its own directory, imports each,
 * registers every named model it exports on the `db` object, runs each registered model's
 * `associate(db)` once, and finally attaches the `sequelize` instance and the `Sequelize` class.
 * The directory listing and the dynamic `import` are parameters.
 */
module ModelRegistry {
  import opened Wrappers
  import opened Seqs

  /** The JavaScript values an imported module can hand over. */
  datatype JsValue =
    | Fn(fname: string, associates: bool)  // a function or class; a Sequelize model is a class named after the model
    | Obj(entries: seq<Entry>)             // a plain object, or a module namespace
    | Str(s: string)
    | Falsy                                // undefined, null, false, 0
    | SequelizeInstance
    | SequelizeClass

  /** One own property, in insertion order. */
  datatype Entry = Entry(key: string, value: JsValue)

  function KeyOf(e: Entry): string { e.key }

  predicate Truthy(v: JsValue) { !v.Falsy? && !(v.Str? && v.s == "") }

  /** `obj[k]`: the property's value, or undefined. */
  function Get(obj: seq<Entry>, k: string): (r: JsValue)
    ensures k !in KeySet(obj, KeyOf) ==> r == Falsy
  {
    match Find(obj, KeyOf, k)
    case None => Falsy
    case Some(i) => obj[i].value
  }

  /** In an object with distinct keys, each entry is what its key reads. */
  lemma GetAt(obj: seq<Entry>, i: nat)
    requires Distinct(obj, KeyOf) && i < |obj|
    ensures Get(obj, obj[i].key) == obj[i].value
  {
    FindUnique(obj, KeyOf, obj[i].key, i);
  }

  /** `v.name` as a property key; "" when it is missing or falsy. */
  function NameOf(v: JsValue): string {
    match v
    case Fn(n, _) => n
    case Obj(entries) => (var n := Get(entries, "name"); if n.Str? then n.s else "")
    case _ => ""
  }

  /** Whether `v.associate` is truthy. */
  predicate HasAssociate(v: JsValue) {
    (v.Fn? && v.associates) || (v.Obj? && Truthy(Get(v.entries, "associate")))
  }

  /**
   * `obj[k] = v`: a new key goes last, an existing key keeps its position. This is insertion
   * order; JavaScript enumerates integer-like keys (such as "7") first, in numeric order, which
   * the model does not follow.
   */
  function Assign(obj: seq<Entry>, k: string, v: JsValue): (r: seq<Entry>)
    requires Distinct(obj, KeyOf)
    ensures Distinct(r, KeyOf)
    ensures KeySet(r, KeyOf) == KeySet(obj, KeyOf) + {k}
    ensures Get(r, k) == v
    ensures forall k' :: k' != k ==> Get(r, k') == Get(obj, k')
    ensures k !in KeySet(obj, KeyOf) ==> r == obj + [Entry(k, v)]
    ensures k in KeySet(obj, KeyOf) ==> |r| == |obj|
  {
    match Find(obj, KeyOf, k)
    case None =>
      var r := obj + [Entry(k, v)];
      AppendDistinct(obj, Entry(k, v), KeyOf);
      KeySetAppend(obj, Entry(k, v), KeyOf);
      GetAt(r, |obj|);
      AssignOthers(obj, r, k);
      r
    case Some(i) =>
      var r := obj[i := Entry(k, v)];
      ReplaceKeys(obj, i, Entry(k, v), KeyOf);
      GetAt(r, i);
      AssignOthers(obj, r, k);
      r
  }

  /** Two objects that agree on every entry not keyed `k` read alike at every other key. */
  lemma AssignOthers(obj: seq<Entry>, r: seq<Entry>, k: string)
    requires Distinct(obj, KeyOf) && Distinct(r, KeyOf)
    requires KeySet(r, KeyOf) == KeySet(obj, KeyOf) + {k}
    requires |r| >= |obj| && forall i :: 0 <= i < |obj| && obj[i].key != k ==> r[i] == obj[i]
    ensures forall k' :: k' != k ==> Get(r, k') == Get(obj, k')
  {
    forall k' | k' != k ensures Get(r, k') == Get(obj, k') {
      if k' in KeySet(obj, KeyOf) {
        var j :| 0 <= j < |obj| && KeyOf(obj[j]) == k';
        GetAt(obj, j);
        GetAt(r, j);
      }
    }
  }

  // ---------------------------------------------------------------------------
  // Which files are models
  // ---------------------------------------------------------------------------

  /** `s.indexOf(c)`: the first position of `c`, or -1. */
  function IndexOf(s: string, c: char): (r: int)
    ensures -1 <= r < |s|
    ensures r == -1 <==> c !in s
    ensures r >= 0 ==> s[r] == c && c !in s[..r]
  {
    if |s| == 0 then -1
    else if s[0] == c then 0
    else
      var r := IndexOf(s[1..], c);
      assert s[1..] == s[1..];
      if r == -1 then -1
      else
        assert s[..r + 1] == [s[0]] + s[1..][..r];
        r + 1
  }

  /** `s.slice(-3)`: the last three characters, or all of a shorter string. */
  function LastThree(s: string): string {
    if |s| >= 3 then s[|s| - 3..] else s
  }

  predicate EndsWith(s: string, p: string) {
    |p| <= |s| && s[|s| - |p|..] == p
  }

  /** The filter over the directory listing; `basename` is the index file's own name. */
  predicate IsModelFile(file: string, basename: string) {
    && IndexOf(file, '.') != 0
    && file != basename
    && LastThree(file) == ".js"
    && !EndsWith(file, ".test.js")
  }

  /**
   * A model file is `<stem>.js` for a stem that does not start with a dot and does not end in
   * `.test`, other than the index file itself.
   */
  lemma ModelFileByStem(stem: string, basename: string)
    ensures IsModelFile(stem + ".js", basename) <==>
      && stem != "" && stem[0] != '.'
      && !EndsWith(stem, ".test")
      && stem + ".js" != basename
  {
    var f := stem + ".js";
    assert f[|f| - 3..] == ".js";
    if stem == "" {
      assert IndexOf(f, '.') == 0;
    } else {
      assert f[0] == stem[0];
      assert IndexOf(f, '.') == 0 <==> stem[0] == '.';
      if |stem| >= 5 {
        assert f[|f| - 8..] == stem[|stem| - 5..] + ".js";
        assert EndsWith(f, ".test.js") <==> EndsWith(stem, ".test");
      }
    }
  }

  /** A name without the `.js` extension, such as the directory's hidden files, is never loaded. */
  lemma OnlyJavaScriptFiles(file: string, basename: string)
    requires IsModelFile(file, basename)
    ensures |file| >= 4 && file[..|file| - 3] + ".js" == file && file[0] != '.'
  {
    assert file[..|file| - 3] + file[|file| - 3..] == file;
  }

  // ---------------------------------------------------------------------------
  // Registration
  // ---------------------------------------------------------------------------

  /** `modelModule.default || modelModule` for a module namespace. */
  function Exported(ns: seq<Entry>): (r: JsValue)
    ensures Truthy(Get(ns, "default")) ==> r == Get(ns, "default")
    ensures !Truthy(Get(ns, "default")) ==> r == Obj(ns)
  {
    var d := Get(ns, "default");
    if Truthy(d) then d else Obj(ns)
  }

  /** The registry's own invariant: distinct keys, each naming the model stored under it. */
  predicate Named(db: seq<Entry>) {
    && Distinct(db, KeyOf)
    && forall i :: 0 <= i < |db| ==> db[i].key != "" && NameOf(db[i].value) == db[i].key
  }

  /** Registering one value: stored under its name when it has a truthy one. */
  function RegisterOne(db: seq<Entry>, v: JsValue): (r: seq<Entry>)
    requires Named(db)
    ensures Named(r)
    ensures Truthy(v) && NameOf(v) != "" ==> Get(r, NameOf(v)) == v
    ensures forall k :: k != NameOf(v) ==> Get(r, k) == Get(db, k)
    ensures !(Truthy(v) && NameOf(v) != "") ==> r == db
  {
    if Truthy(v) && NameOf(v) != "" then
      AssignKeepsNamed(db, NameOf(v), v);
      Assign(db, NameOf(v), v)
    else db
  }

  lemma AssignKeepsNamed(db: seq<Entry>, k: string, v: JsValue)
    requires Named(db) && k != "" && NameOf(v) == k
    ensures Named(Assign(db, k, v))
  {
    var r := Assign(db, k, v);
    forall i | 0 <= i < |r|
      ensures r[i].key != "" && NameOf(r[i].value) == r[i].key
    {
      var key := r[i].key;
      GetAt(r, i);
      assert key in KeySet(r, KeyOf);
      if key != k {
        var j :| 0 <= j < |db| && KeyOf(db[j]) == key;
        GetAt(db, j);
      }
    }
  }

  /** The `Object.keys(models).forEach` loop over an object of named exports. */
  function RegisterEach(db: seq<Entry>, entries: seq<Entry>): (r: seq<Entry>)
    requires Named(db)
    ensures Named(r)
    decreases |entries|
  {
    if |entries| == 0 then db
    else RegisterEach(RegisterOne(db, entries[0].value), entries[1..])
  }

  /**
   * Registering what one module exports: an object without a `name` contributes each of its
   * named values, anything else with a `name` is one model, and the rest contributes nothing.
   */
  function Register(db: seq<Entry>, models: JsValue): (r: seq<Entry>)
    requires Named(db)
    ensures Named(r)
    ensures !models.Obj? && Truthy(models) && NameOf(models) != "" ==> Get(r, NameOf(models)) == models
    ensures !models.Obj? && !(Truthy(models) && NameOf(models) != "") ==> r == db
  {
    if models.Obj? && NameOf(models) == "" then RegisterEach(db, models.entries)
    else RegisterOne(db, models)
  }

  /** One step of the import loop. */
  function ImportOne(db: seq<Entry>, file: string, load: string -> Option<seq<Entry>>): (r: seq<Entry>)
    requires Named(db)
    ensures Named(r)
    ensures load(file).None? ==> r == db
  {
    match load(file)
    case None => db
    case Some(ns) => Register(db, Exported(ns))
  }

  /**
   * The import loop: `load(file)` is the module namespace, or None when the import throws, which
   * is logged and skipped.
   */
  function ImportAll(db: seq<Entry>, files: seq<string>, load: string -> Option<seq<Entry>>): (r: seq<Entry>)
    requires Named(db)
    ensures Named(r)
    decreases |files|
  {
    if |files| == 0 then db
    else ImportAll(ImportOne(db, files[0], load), files[1..], load)
  }

  /** A module that fails to import changes nothing: the result is as if the file were absent. */
  lemma {:induction false} FailedImportsSkipped(db: seq<Entry>, files: seq<string>, load: string -> Option<seq<Entry>>)
    requires Named(db)
    ensures ImportAll(db, files, load) == ImportAll(db, Filter(files, (f: string) => load(f).Some?), load)
    decreases |files|
  {
    if |files| > 0 {
      FailedImportsSkipped(ImportOne(db, files[0], load), files[1..], load);
      var ok := (f: string) => load(f).Some?;
      assert files == [files[0]] + files[1..];
      FilterAppend([files[0]], files[1..], ok);
      if ok(files[0]) {
        assert Filter(files, ok) == [files[0]] + Filter(files[1..], ok);
        assert Filter(files, ok)[1..] == Filter(files[1..], ok);
      } else {
        assert Filter(files, ok) == Filter(files[1..], ok);
      }
    }
  }

  /** Only what `load` gives for the listed files matters. */
  lemma {:induction false} ImportAllDependsOnFiles(db: seq<Entry>, files: seq<string>, load1: string -> Option<seq<Entry>>, load2: string -> Option<seq<Entry>>)
    requires Named(db)
    requires forall i :: 0 <= i < |files| ==> load1(files[i]) == load2(files[i])
    ensures ImportAll(db, files, load1) == ImportAll(db, files, load2)
    decreases |files|
  {
    if |files| > 0 {
      ImportAllDependsOnFiles(ImportOne(db, files[0], load1), files[1..], load1, load2);
    }
  }

  /** What `initializeModels` leaves: the `db` object and the models whose `associate` ran, in order. */
  datatype Loaded = Loaded(db: seq<Entry>, associated: seq<string>)

  /**
   * `initializeModels` over the directory listing `dir`: filter, import and register, run
   * `associate` for each registered model that has one, in key order, and only then attach
   * `sequelize` and `Sequelize`.
   */
  function InitializeModels(dir: seq<string>, basename: string, load: string -> Option<seq<Entry>>): (r: Loaded)
    ensures Get(r.db, "sequelize") == SequelizeInstance && Get(r.db, "Sequelize") == SequelizeClass
    ensures Distinct(r.db, KeyOf)
    ensures Distinct(r.associated, (k: string) => k)
    ensures forall k :: k in r.associated <==>
      (k in KeySet(Models(dir, basename, load), KeyOf) && HasAssociate(Get(Models(dir, basename, load), k)))
    ensures forall k :: k != "sequelize" && k != "Sequelize" ==> Get(r.db, k) == Get(Models(dir, basename, load), k)
  {
    var db := Models(dir, basename, load);
    var calls := AssociateCalls(db);
    AssociateOnce(db);
    var withInstance := Assign(db, "sequelize", SequelizeInstance);
    Loaded(Assign(withInstance, "Sequelize", SequelizeClass), calls)
  }

  /** The models registered from the model files of `dir`, before the two library keys are added. */
  function Models(dir: seq<string>, basename: string, load: string -> Option<seq<Entry>>): (r: seq<Entry>)
    ensures Named(r)
  {
    ImportAll([], Filter(dir, (f: string) => IsModelFile(f, basename)), load)
  }

  /** The keys of the registered models that have `associate`, in key order. */
  function AssociateCalls(db: seq<Entry>): seq<string> {
    Map(Filter(db, (e: Entry) => HasAssociate(e.value)), KeyOf)
  }

  /** Each registered model that has `associate` gets exactly one call, and nothing else does. */
  lemma AssociateOnce(db: seq<Entry>)
    requires Named(db)
    ensures Distinct(AssociateCalls(db), (k: string) => k)
    ensures forall k :: k in AssociateCalls(db) <==> (k in KeySet(db, KeyOf) && HasAssociate(Get(db, k)))
  {
    AssociateCallsDistinct(db);
    forall k ensures k in AssociateCalls(db) <==> (k in KeySet(db, KeyOf) && HasAssociate(Get(db, k))) {
      AssociateCallsMember(db, k);
    }
  }

  lemma AssociateCallsDistinct(db: seq<Entry>)
    requires Distinct(db, KeyOf)
    ensures Distinct(AssociateCalls(db), (k: string) => k)
  {
    var f := (e: Entry) => HasAssociate(e.value);
    var kept := Filter(db, f);
    var calls := AssociateCalls(db);
    FilterDistinct(db, f, KeyOf);
    forall i, j | 0 <= i < j < |calls| ensures calls[i] != calls[j] {
      assert KeyOf(kept[i]) != KeyOf(kept[j]);
    }
  }

  lemma AssociateCallsMember(db: seq<Entry>, k: string)
    requires Distinct(db, KeyOf)
    ensures k in AssociateCalls(db) <==> (k in KeySet(db, KeyOf) && HasAssociate(Get(db, k)))
  {
    var f := (e: Entry) => HasAssociate(e.value);
    var kept := Filter(db, f);
    var calls := AssociateCalls(db);
    if k in calls {
      var i :| 0 <= i < |calls| && calls[i] == k;
      assert kept[i] in db && f(kept[i]);
      var j :| 0 <= j < |db| && db[j] == kept[i];
      GetAt(db, j);
    }
    if k in KeySet(db, KeyOf) && HasAssociate(Get(db, k)) {
      var j :| 0 <= j < |db| && KeyOf(db[j]) == k;
      GetAt(db, j);
      assert f(db[j]);
      assert db[j] in kept;
      var i :| 0 <= i < |kept| && kept[i] == db[j];
      assert calls[i] == k;
    }
  }

  /** A model file whose default export is a model registers it under its own name. */
  lemma SingleModelRegistered(db: seq<Entry>, file: string, ns: seq<Entry>, load: string -> Option<seq<Entry>>)
    requires load(file) == Some(ns)
    requires Named(db)
    requires Get(ns, "default").Fn? && Get(ns, "default").fname != ""
    ensures var m := Get(ns, "default");
      Get(ImportAll(db, [file], load), m.fname) == m
  {
    var m := Get(ns, "default");
    assert Exported(ns) == m;
    assert [file][1..] == [];
  }
}
