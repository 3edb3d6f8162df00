/**
 ProgrammingLanguageService behind the read-through cache of the Cacheable and
 CacheInvalidate decorators.

 Mutators load the row they start from through the cache, so a stale by-id entry would be
 written back to the table.  Every operation is one step of `Step`; `PlainStep` is the same
 service without a cache.  Reads, writes and deletions of the cache store are assumed to
 succeed; entries may disappear at any time (`Evict`: expiry and eviction).
 */
module LanguageCache {
  import opened Wrappers
  import Decimal

  datatype Language = Language(id: int, name: string, slug: string, judge0Id: Option<int>,
                               monacoLanguage: Option<string>, isActive: bool, orderIndex: int, starterCode: string)

  datatype CreateDto = CreateDto(name: string, judge0Id: Option<int>, monacoLanguage: Option<string>,
                                 isActive: Option<bool>, orderIndex: Option<int>, starterCode: string)

  /** Every field may be left out; the nullable columns may also be set to null. */
  datatype UpdateDto = UpdateDto(name: Option<string>, judge0Id: Option<Option<int>>,
                                 monacoLanguage: Option<Option<string>>, isActive: Option<bool>,
                                 orderIndex: Option<int>, starterCode: Option<string>)

  datatype Op =
    | FindById(id: int)
    | FindBySlug(slug: string)
    | Create(createDto: CreateDto)
    | Update(id: int, updateDto: UpdateDto)
    | Delete(id: int, inUse: bool)
    | SetActive(id: int, active: bool)
    | Reorder(ids: seq<int>)
    | Evict(key: string)

  datatype Reply = Found(language: Language) | NotFound | Conflict | Done

  datatype State = State(rows: map<int, Language>, nextId: int, cache: map<string, Language>)

  // ---------------------------------------------------------------- cache keys

  const ALL_ACTIVE := "languages:all:active"

  function ByIdKey(id: int): string { "language:" + Decimal.PrintInt(id) }

  function BySlugKey(slug: string): string { "language:slug:" + slug }

  /** The key functions are injective and their ranges are disjoint. */
  lemma KeysApart(id: int, other: int, slug: string, slug': string)
    ensures ByIdKey(id) == ByIdKey(other) ==> id == other
    ensures BySlugKey(slug) == BySlugKey(slug') ==> slug == slug'
    ensures ByIdKey(id) != BySlugKey(slug)
    ensures ALL_ACTIVE != ByIdKey(id) && ALL_ACTIVE != BySlugKey(slug)
  {
    var n := |"language:"|;
    assert ByIdKey(id)[n..] == Decimal.PrintInt(id) && ByIdKey(other)[n..] == Decimal.PrintInt(other);
    if ByIdKey(id) == ByIdKey(other) {
      Decimal.PrintInjective(id, other);
    }
    assert BySlugKey(slug)[n + 5..] == slug && BySlugKey(slug')[n + 5..] == slug';
    assert BySlugKey(slug)[n] == 's';
    assert ByIdKey(id)[n] == Decimal.PrintInt(id)[0];
    assert id >= 0 ==> Decimal.IsDigit(Decimal.Print(id)[0]);
    assert ALL_ACTIVE[8] == 's' && ByIdKey(id)[8] == ':' && BySlugKey(slug)[8] == ':';
  }

  // ---------------------------------------------------------------- table operations

  ghost function SlugOwner(rows: map<int, Language>, slug: string): (r: Option<int>)
    ensures r.Some? ==> r.value in rows && rows[r.value].slug == slug
    ensures r.None? ==> forall id | id in rows :: rows[id].slug != slug
  {
    if id :| id in rows && rows[id].slug == slug then Some(id) else None
  }

  predicate NameTaken(rows: map<int, Language>, name: string) {
    exists id | id in rows :: rows[id].name == name
  }

  predicate SlugTaken(rows: map<int, Language>, slug: string) {
    exists id | id in rows :: rows[id].slug == slug
  }

  ghost function AnyOf<T>(s: set<T>): (x: T)
    requires s != {}
    ensures x in s
  {
    var x :| x in s;
    x
  }

  ghost function Greatest(s: set<int>): (m: int)
    requires s != {}
    ensures m in s && forall x | x in s :: x <= m
  {
    var x := AnyOf(s);
    var rest := s - {x};
    assert forall y | y in s :: y == x || y in rest;
    if rest == {} then x else
    var m := Greatest(rest);
    if m < x then x else m
  }

  ghost function Orders(rows: map<int, Language>): set<int> {
    set id | id in rows :: rows[id].orderIndex
  }

  /** One more than the greatest order index; a new language is listed after all others. */
  ghost function NextOrder(rows: map<int, Language>): (n: int)
    ensures forall id | id in rows :: rows[id].orderIndex < n
    ensures if rows == map[] then n == 1 else exists id | id in rows :: rows[id].orderIndex + 1 == n
  {
    assert forall id | id in rows :: rows[id].orderIndex in Orders(rows);
    assert rows != map[] ==> exists id :: id in rows && rows[id].orderIndex in Orders(rows);
    if Orders(rows) == {} then 1 else Greatest(Orders(rows)) + 1
  }

  ghost function NewRow(rows: map<int, Language>, id: int, slug: string, dto: CreateDto): Language {
    Language(id, dto.name, slug, dto.judge0Id, dto.monacoLanguage,
             if dto.isActive.Some? then dto.isActive.value else true,
             if dto.orderIndex.Some? then dto.orderIndex.value else NextOrder(rows), dto.starterCode)
  }

  function Assign(language: Language, dto: UpdateDto, slug: string): Language {
    Language(language.id,
             if dto.name.Some? then dto.name.value else language.name,
             slug,
             if dto.judge0Id.Some? then dto.judge0Id.value else language.judge0Id,
             if dto.monacoLanguage.Some? then dto.monacoLanguage.value else language.monacoLanguage,
             if dto.isActive.Some? then dto.isActive.value else language.isActive,
             if dto.orderIndex.Some? then dto.orderIndex.value else language.orderIndex,
             if dto.starterCode.Some? then dto.starterCode.value else language.starterCode)
  }

  function SetOrder(rows: map<int, Language>, id: int, order: int): map<int, Language> {
    if id in rows then rows[id := rows[id].(orderIndex := order)] else rows
  }

  function ReorderRows(rows: map<int, Language>, ids: seq<int>, n: nat): map<int, Language>
    requires n <= |ids|
  {
    if n == 0 then rows else SetOrder(ReorderRows(rows, ids, n - 1), ids[n - 1], n - 1)
  }

  function ReorderedKeys(ids: seq<int>, n: nat): set<string>
    requires n <= |ids|
  {
    if n == 0 then {} else ReorderedKeys(ids, n - 1) + {ByIdKey(ids[n - 1])}
  }

  /** What a mutator does to the table once it holds `language`, and which slug entry it drops. */
  datatype Effect = Effect(rows: map<int, Language>, reply: Reply, staleSlug: Option<string>)

  predicate Renames(language: Language, dto: UpdateDto) {
    dto.name.Some? && dto.name.value != "" && dto.name.value != language.name
  }

  function UpdateEffect(slugify: string -> string, rows: map<int, Language>, language: Language, id: int,
                        dto: UpdateDto): Effect
  {
    if Renames(language, dto) then
      var slug := slugify(dto.name.value);
      if NameTaken(rows, dto.name.value) || (exists o | o in rows :: rows[o].slug == slug && o != id)
      then Effect(rows, Conflict, None)
      else
        var row := Assign(language, dto, slug);
        Effect(rows[row.id := row], Found(row), Some(language.slug))
    else
      var row := Assign(language, dto, language.slug);
      Effect(rows[row.id := row], Found(row), None)
  }

  function DeleteEffect(rows: map<int, Language>, language: Language, id: int, inUse: bool): Effect {
    if inUse then Effect(rows, Conflict, None) else Effect(rows - {id}, Done, Some(language.slug))
  }

  function SetActiveEffect(rows: map<int, Language>, language: Language, active: bool): Effect {
    if language.isActive == active then Effect(rows, Found(language), None) else
    var row := language.(isActive := active);
    Effect(rows[row.id := row], Found(row), Some(language.slug))
  }

  function Mutate(slugify: string -> string, rows: map<int, Language>, language: Language, op: Op): Effect
    requires op.Update? || op.Delete? || op.SetActive?
  {
    match op
    case Update(id, dto) => UpdateEffect(slugify, rows, language, id, dto)
    case Delete(id, inUse) => DeleteEffect(rows, language, id, inUse)
    case SetActive(_, active) => SetActiveEffect(rows, language, active)
  }

  // ---------------------------------------------------------------- the service without a cache

  datatype Table = Table(rows: map<int, Language>, nextId: int)

  ghost function CreateStep(slugify: string -> string, t: Table, dto: CreateDto): (Table, Reply) {
    var slug := slugify(dto.name);
    if NameTaken(t.rows, dto.name) || SlugTaken(t.rows, slug) then (t, Conflict) else
    var row := NewRow(t.rows, t.nextId, slug, dto);
    (Table(t.rows[row.id := row], t.nextId + 1), Found(row))
  }

  ghost function PlainStep(slugify: string -> string, t: Table, op: Op): (Table, Reply) {
    match op
    case FindById(id) => (t, if id in t.rows then Found(t.rows[id]) else NotFound)
    case FindBySlug(slug) =>
      (t, if SlugOwner(t.rows, slug).Some? then Found(t.rows[SlugOwner(t.rows, slug).value]) else NotFound)
    case Create(dto) => CreateStep(slugify, t, dto)
    case Reorder(ids) => (Table(ReorderRows(t.rows, ids, |ids|), t.nextId), Done)
    case Evict(_) => (t, Done)
    case _ =>
      if op.id !in t.rows then (t, NotFound) else
      var e := Mutate(slugify, t.rows, t.rows[op.id], op);
      (Table(e.rows, t.nextId), e.reply)
  }

  // ---------------------------------------------------------------- the cached service

  /** findById as the Cacheable wrapper runs it. */
  function LoadById(s: State, id: int): (State, Reply) {
    var key := ByIdKey(id);
    if key in s.cache then (s, Found(s.cache[key]))
    else if id in s.rows then (s.(cache := s.cache[key := s.rows[id]]), Found(s.rows[id]))
    else (s, NotFound)
  }

  ghost function LoadBySlug(s: State, slug: string): (State, Reply) {
    var key := BySlugKey(slug);
    var owner := SlugOwner(s.rows, slug);
    if key in s.cache then (s, Found(s.cache[key]))
    else if owner.Some? then (s.(cache := s.cache[key := s.rows[owner.value]]), Found(s.rows[owner.value]))
    else (s, NotFound)
  }

  /** update, delete, activate and deactivate inside the CacheInvalidate wrapper. */
  function MutateStep(slugify: string -> string, s: State, op: Op): (State, Reply)
    requires op.Update? || op.Delete? || op.SetActive?
  {
    var (s1, r) := LoadById(s, op.id);
    if !r.Found? then (s1, r) else
    var e := Mutate(slugify, s1.rows, r.language, op);
    if e.reply.Conflict? then (s1, Conflict) else
    var dropped := if e.staleSlug.Some? then {ByIdKey(op.id), BySlugKey(e.staleSlug.value)} else {ByIdKey(op.id)};
    (State(e.rows, s1.nextId, s1.cache - dropped), e.reply)
  }

  ghost function Step(slugify: string -> string, s: State, op: Op): (State, Reply) {
    match op
    case FindById(id) => LoadById(s, id)
    case FindBySlug(slug) => LoadBySlug(s, slug)
    case Create(dto) =>
      var (t, r) := CreateStep(slugify, Table(s.rows, s.nextId), dto);
      (State(t.rows, t.nextId, s.cache), r)
    case Reorder(ids) =>
      (State(ReorderRows(s.rows, ids, |ids|), s.nextId, s.cache - ReorderedKeys(ids, |ids|) - {ALL_ACTIVE}), Done)
    case Evict(key) => (s.(cache := s.cache - {key}), Done)
    case _ => MutateStep(slugify, s, op)
  }

  // ---------------------------------------------------------------- what the cache may hold

  predicate TableOk(rows: map<int, Language>, nextId: int) {
    && (forall id | id in rows :: rows[id].id == id && id < nextId)
    && (forall a, b | a in rows && b in rows && a != b :: rows[a].name != rows[b].name && rows[a].slug != rows[b].slug)
  }

  ghost predicate ByIdExact(rows: map<int, Language>, cache: map<string, Language>) {
    forall id: int | ByIdKey(id) in cache :: id in rows && cache[ByIdKey(id)] == rows[id]
  }

  /** The row that owns the slug now, as far as id, slug and name go. */
  predicate Describes(c: Language, rows: map<int, Language>, slug: string) {
    c.slug == slug && c.id in rows && rows[c.id].slug == slug && rows[c.id].name == c.name
  }

  ghost predicate BySlugClose(rows: map<int, Language>, cache: map<string, Language>) {
    forall slug: string | BySlugKey(slug) in cache :: Describes(cache[BySlugKey(slug)], rows, slug)
  }

  ghost predicate Coherent(s: State) {
    TableOk(s.rows, s.nextId) && ByIdExact(s.rows, s.cache) && BySlugClose(s.rows, s.cache)
  }

  /** The dto rules (IsNotEmpty) that the controllers enforce on names. */
  predicate ValidOp(op: Op) {
    op.Update? ==> op.updateDto.name != Some("")
  }

  lemma LoadByIdKeeps(s: State, id: int)
    requires Coherent(s)
    ensures var (t, r) := LoadById(s, id);
            && Coherent(t) && t.rows == s.rows && t.nextId == s.nextId
            && r == (if id in s.rows then Found(s.rows[id]) else NotFound)
  {
    forall other: int ensures ByIdKey(other) == ByIdKey(id) ==> other == id {
      KeysApart(id, other, "", "");
    }
    forall slug: string ensures BySlugKey(slug) != ByIdKey(id) {
      KeysApart(id, id, slug, slug);
    }
  }

  lemma LoadBySlugKeeps(s: State, slug: string)
    requires Coherent(s)
    ensures var (t, r) := LoadBySlug(s, slug);
            && Coherent(t) && t.rows == s.rows && t.nextId == s.nextId
            && (r == NotFound || (r.Found? && Describes(r.language, s.rows, slug)))
            && (r == NotFound <==> SlugOwner(s.rows, slug).None?)
  {
    forall other: string ensures BySlugKey(other) == BySlugKey(slug) ==> other == slug {
      KeysApart(0, 0, slug, other);
    }
    forall id: int ensures ByIdKey(id) != BySlugKey(slug) {
      KeysApart(id, id, slug, slug);
    }
  }

  /** One row changes; its by-id entry is dropped, and its slug entry too unless slug and name stay. */
  lemma RowChangeKeeps(rows: map<int, Language>, rows': map<int, Language>, cache: map<string, Language>,
                       cache': map<string, Language>, id: int)
    requires ByIdExact(rows, cache) && BySlugClose(rows, cache)
    requires forall o | o != id :: (o in rows <==> o in rows') && (o in rows ==> rows'[o] == rows[o])
    requires forall k | k in cache' :: k in cache && cache'[k] == cache[k]
    requires ByIdKey(id) !in cache'
    requires id in rows ==>
      (BySlugKey(rows[id].slug) !in cache'
       || (id in rows' && rows'[id].slug == rows[id].slug && rows'[id].name == rows[id].name))
    ensures ByIdExact(rows', cache') && BySlugClose(rows', cache')
  {}

  lemma MutateKeepsTable(slugify: string -> string, rows: map<int, Language>, nextId: int, op: Op)
    requires TableOk(rows, nextId) && (op.Update? || op.Delete? || op.SetActive?) && op.id in rows && ValidOp(op)
    ensures var e := Mutate(slugify, rows, rows[op.id], op);
            && TableOk(e.rows, nextId)
            && (forall o | o != op.id :: (o in rows <==> o in e.rows) && (o in rows ==> e.rows[o] == rows[o]))
            && (e.reply.Conflict? ==> e.rows == rows)
            && (e.staleSlug == Some(rows[op.id].slug)
                || (op.id in e.rows && e.rows[op.id].slug == rows[op.id].slug
                    && e.rows[op.id].name == rows[op.id].name))
  {}

  lemma MutateStepKeeps(slugify: string -> string, s: State, op: Op)
    requires Coherent(s) && (op.Update? || op.Delete? || op.SetActive?) && ValidOp(op)
    ensures var (t, r) := MutateStep(slugify, s, op);
            Coherent(t) && PlainStep(slugify, Table(s.rows, s.nextId), op) == (Table(t.rows, t.nextId), r)
  {
    LoadByIdKeeps(s, op.id);
    var s1 := LoadById(s, op.id).0;
    if op.id in s.rows {
      MutateKeepsTable(slugify, s.rows, s.nextId, op);
      var e := Mutate(slugify, s.rows, s.rows[op.id], op);
      var t := MutateStep(slugify, s, op).0;
      if !e.reply.Conflict? {
        RowChangeKeeps(s1.rows, t.rows, s1.cache, t.cache, op.id);
      }
    }
  }

  lemma SetOrderKeeps(s: State, id: int, order: int)
    requires Coherent(s)
    ensures Coherent(State(SetOrder(s.rows, id, order), s.nextId, s.cache - {ByIdKey(id)}))
  {
    RowChangeKeeps(s.rows, SetOrder(s.rows, id, order), s.cache, s.cache - {ByIdKey(id)}, id);
  }

  lemma {:induction false} ReorderKeeps(s: State, ids: seq<int>, n: nat)
    requires Coherent(s) && n <= |ids|
    ensures Coherent(State(ReorderRows(s.rows, ids, n), s.nextId, s.cache - ReorderedKeys(ids, n)))
  {
    hide Coherent, SetOrder, ByIdKey;
    if n == 0 {
      assert s.cache - {} == s.cache;
    } else {
      ReorderKeeps(s, ids, n - 1);
      var t := State(ReorderRows(s.rows, ids, n - 1), s.nextId, s.cache - ReorderedKeys(ids, n - 1));
      SetOrderKeeps(t, ids[n - 1], n - 1);
      assert t.cache - {ByIdKey(ids[n - 1])} == s.cache - ReorderedKeys(ids, n);
    }
  }

  lemma ReorderStepKeeps(s: State, ids: seq<int>)
    requires Coherent(s)
    ensures Coherent(State(ReorderRows(s.rows, ids, |ids|), s.nextId,
                           s.cache - ReorderedKeys(ids, |ids|) - {ALL_ACTIVE}))
  {
    hide ReorderRows, ReorderedKeys;
    ReorderKeeps(s, ids, |ids|);
  }

  lemma CreateKeeps(slugify: string -> string, s: State, dto: CreateDto)
    requires Coherent(s)
    ensures Coherent(Step(slugify, s, Create(dto)).0)
  {}

  /** Both services agree on a reply; for a lookup by slug, on the row's id, slug and name. */
  predicate RepliesAgree(op: Op, cached: Reply, plain: Reply) {
    if op.FindBySlug? && cached.Found? then
      && plain.Found? && cached.language.id == plain.language.id
      && cached.language.slug == plain.language.slug && cached.language.name == plain.language.name
    else cached == plain
  }

  lemma StepRefines(slugify: string -> string, s: State, op: Op)
    requires Coherent(s) && ValidOp(op)
    ensures var (t, r) := Step(slugify, s, op);
            var (t', r') := PlainStep(slugify, Table(s.rows, s.nextId), op);
            Coherent(t) && t' == Table(t.rows, t.nextId) && RepliesAgree(op, r, r')
  {
    match op
    case FindById(id) => LoadByIdKeeps(s, id);
    case FindBySlug(slug) => LoadBySlugKeeps(s, slug);
    case Create(dto) => CreateKeeps(slugify, s, dto);
    case Reorder(ids) => ReorderStepKeeps(s, ids);
    case Evict(_) =>
    case _ => MutateStepKeeps(slugify, s, op);
  }

  // ---------------------------------------------------------------- which entries come and go

  /** A lookup leaves an entry for what it found; a hit is served from the entry, without the table. */
  lemma LookupsFill(s: State, id: int, slug: string)
    ensures var (t, r) := LoadById(s, id);
            if r.Found? then ByIdKey(id) in t.cache && t.cache[ByIdKey(id)] == r.language else t == s
    ensures var (t, r) := LoadBySlug(s, slug);
            if r.Found? then BySlugKey(slug) in t.cache && t.cache[BySlugKey(slug)] == r.language else t == s
    ensures ByIdKey(id) in s.cache ==> LoadById(s, id) == (s, Found(s.cache[ByIdKey(id)]))
    ensures BySlugKey(slug) in s.cache ==> LoadBySlug(s, slug) == (s, Found(s.cache[BySlugKey(slug)]))
  {
    hide ByIdKey, BySlugKey;
  }

  /** The operation takes the entry of the language's slug with it: a rename, a deletion or a change of the flag. */
  ghost predicate DropsSlug(slugify: string -> string, s: State, op: Op, slug: string)
    requires op.Update? || op.Delete? || op.SetActive?
  {
    && op.id in s.rows && s.rows[op.id].slug == slug
    && match op
       case Update(id, dto) =>
         Renames(s.rows[id], dto) && !TakenByOther(s.rows, id, dto.name.value, slugify(dto.name.value))
       case Delete(_, inUse) => !inUse
       case SetActive(id, active) => s.rows[id].isActive != active
  }

  /**
   Which entries a mutator drops: that of the old slug when it must, its own by-id entry unless it refuses,
   and no other.
   */
  lemma MutatorsDrop(slugify: string -> string, s: State, op: Op, slug: string, o: int)
    requires Coherent(s) && (op.Update? || op.Delete? || op.SetActive?) && ValidOp(op)
    ensures var (t, r) := Step(slugify, s, op);
            && (BySlugKey(slug) in t.cache <==> BySlugKey(slug) in s.cache && !DropsSlug(slugify, s, op, slug))
            && (o != op.id ==> (ByIdKey(o) in t.cache <==> ByIdKey(o) in s.cache))
            && (ByIdKey(op.id) in t.cache <==> r == Conflict)
  {
    forall other: string ensures BySlugKey(other) == BySlugKey(slug) ==> other == slug {
      KeysApart(0, 0, slug, other);
    }
    forall id: int, x: string ensures ByIdKey(id) != BySlugKey(x) {
      KeysApart(id, id, x, x);
    }
    KeysApart(o, op.id, slug, slug);
    LoadByIdKeeps(s, op.id);
    if op.Update? && op.id in s.rows {
      UpdateMeans(slugify, s.rows, s.nextId, op.id, op.updateDto);
    }
    hide ByIdKey, BySlugKey, TakenByOther, NameTaken, Coherent, Assign;
  }

  /** Expiry and eviction take one entry. */
  lemma EvictTakesOne(slugify: string -> string, s: State, key: string)
    ensures Step(slugify, s, Evict(key)) == (s.(cache := s.cache - {key}), Done)
  {
    hide MutateStep, CreateStep, LoadById, LoadBySlug;
  }

  lemma CacheAfterReorder(slugify: string -> string, s: State, ids: seq<int>)
    ensures Step(slugify, s, Reorder(ids)).0.cache == s.cache - ReorderedKeys(ids, |ids|) - {ALL_ACTIVE}
  {
    hide MutateStep, CreateStep, LoadById, LoadBySlug, ReorderRows, ReorderedKeys;
  }

  /** A reorder takes the by-id entries of what it lists. */
  lemma ReorderTakes(slugify: string -> string, s: State, ids: seq<int>, o: int)
    ensures ByIdKey(o) in Step(slugify, s, Reorder(ids)).0.cache <==> ByIdKey(o) in s.cache && o !in ids
  {
    hide *;
    CacheAfterReorder(slugify, s, ids);
    KeysApart(o, o, "", "");
    ReorderDrops(ids, |ids|, o);
    assert ids[..|ids|] == ids;
  }

  lemma {:induction false} ReorderDrops(ids: seq<int>, n: nat, o: int)
    requires n <= |ids|
    ensures ByIdKey(o) in ReorderedKeys(ids, n) <==> o in ids[..n]
  {
    hide ByIdKey;
    if n > 0 {
      KeysApart(o, ids[n - 1], "", "");
      ReorderDrops(ids, n - 1, o);
      assert ids[..n] == ids[..n - 1] + [ids[n - 1]];
    }
  }

  // ---------------------------------------------------------------- reading back what was written

  /** The reply of findById right after the operation. */
  ghost function ReadBack(slugify: string -> string, s: State, op: Op, id: int): Reply {
    LoadById(Step(slugify, s, op).0, id).1
  }

  /** The reply of findBySlug right after the operation. */
  ghost function ReadBackSlug(slugify: string -> string, s: State, op: Op, slug: string): Reply {
    LoadBySlug(Step(slugify, s, op).0, slug).1
  }

  /** Another language than id has the name or the slug. */
  predicate TakenByOther(rows: map<int, Language>, id: int, name: string, slug: string) {
    exists o | o in rows && o != id :: rows[o].name == name || rows[o].slug == slug
  }

  predicate Kept<T(==)>(given: Option<T>, was: T, now: T) { now == if given.Some? then given.value else was }

  /** A lookup by id after any operation gives what the uncached service's table holds. */
  lemma ReadBackIsTable(slugify: string -> string, s: State, op: Op, id: int)
    requires Coherent(s) && ValidOp(op)
    ensures var rows := PlainStep(slugify, Table(s.rows, s.nextId), op).0.rows;
            && Step(slugify, s, op).0.rows == rows
            && ReadBack(slugify, s, op, id) == if id in rows then Found(rows[id]) else NotFound
  {
    StepRefines(slugify, s, op);
    LoadByIdKeeps(Step(slugify, s, op).0, id);
  }

  /**
   An update is refused exactly when another language has the new name or its slug.  Otherwise the
   given fields are read back as given and the others as they were, and the slug follows the name.
   */
  lemma UpdateIsReadBack(slugify: string -> string, s: State, id: int, dto: UpdateDto)
    requires Coherent(s) && ValidOp(Update(id, dto)) && id in s.rows
    ensures var was, r := s.rows[id], Step(slugify, s, Update(id, dto)).1;
            && (r.Conflict? <==> Renames(was, dto) && TakenByOther(s.rows, id, dto.name.value, slugify(dto.name.value)))
            && ReadBack(slugify, s, Update(id, dto), id) == (if r.Conflict? then Found(was) else r)
            && (!r.Conflict? ==> (
                  && r.Found? && r.language.id == id
                  && Kept(dto.name, was.name, r.language.name)
                  && r.language.slug == (if r.language.name == was.name then was.slug else slugify(r.language.name))
                  && Kept(dto.judge0Id, was.judge0Id, r.language.judge0Id)
                  && Kept(dto.monacoLanguage, was.monacoLanguage, r.language.monacoLanguage)
                  && Kept(dto.isActive, was.isActive, r.language.isActive)
                  && Kept(dto.orderIndex, was.orderIndex, r.language.orderIndex)
                  && Kept(dto.starterCode, was.starterCode, r.language.starterCode)))
  {
    ReadBackIsTable(slugify, s, Update(id, dto), id);
    MutateStepKeeps(slugify, s, Update(id, dto));
    UpdateMeans(slugify, s.rows, s.nextId, id, dto);
  }

  lemma UpdateMeans(slugify: string -> string, rows: map<int, Language>, nextId: int, id: int, dto: UpdateDto)
    requires TableOk(rows, nextId) && ValidOp(Update(id, dto)) && id in rows
    ensures var e := UpdateEffect(slugify, rows, rows[id], id, dto);
            && (e.reply.Conflict?
                <==> Renames(rows[id], dto) && TakenByOther(rows, id, dto.name.value, slugify(dto.name.value)))
            && (if e.reply.Conflict? then e.rows == rows
                else e.reply.Found? && id in e.rows && e.rows[id] == e.reply.language)
  {
    if Renames(rows[id], dto) && NameTaken(rows, dto.name.value) {
      var o :| o in rows && rows[o].name == dto.name.value;
      assert o != id;
    }
  }

  /** Activation and deactivation are read back, and change nothing else. */
  lemma SetActiveIsReadBack(slugify: string -> string, s: State, id: int, active: bool)
    requires Coherent(s)
    ensures ReadBack(slugify, s, SetActive(id, active), id)
         == if id in s.rows then Found(s.rows[id].(isActive := active)) else NotFound
    ensures id in s.rows ==>
              Step(slugify, s, SetActive(id, active)).0.rows == s.rows[id := s.rows[id].(isActive := active)]
  {
    ReadBackIsTable(slugify, s, SetActive(id, active), id);
    if id in s.rows && s.rows[id].isActive == active {
      assert s.rows[id := s.rows[id].(isActive := active)] == s.rows;
    }
  }

  /** A deleted language is found neither by id nor by its slug; one in use stays. */
  lemma DeleteIsReadBack(slugify: string -> string, s: State, id: int, inUse: bool)
    requires Coherent(s) && id in s.rows
    ensures ReadBack(slugify, s, Delete(id, inUse), id) == if inUse then Found(s.rows[id]) else NotFound
    ensures !inUse ==> ReadBackSlug(slugify, s, Delete(id, inUse), s.rows[id].slug) == NotFound
  {
    ReadBackIsTable(slugify, s, Delete(id, inUse), id);
    StepRefines(slugify, s, Delete(id, inUse));
    LoadBySlugKeeps(Step(slugify, s, Delete(id, inUse)).0, s.rows[id].slug);
  }

  /** A created language is found by id and by slug; creation is refused exactly when name or slug is taken. */
  lemma CreateIsReadBack(slugify: string -> string, s: State, dto: CreateDto)
    requires Coherent(s)
    ensures var r := Step(slugify, s, Create(dto)).1;
            && (r.Conflict? <==> TakenByOther(s.rows, s.nextId, dto.name, slugify(dto.name)))
            && (!r.Conflict? ==> (
                  && r.Found? && r.language.id !in s.rows && r.language.name == dto.name
                  && r.language.slug == slugify(dto.name)
                  && r.language.judge0Id == dto.judge0Id && r.language.monacoLanguage == dto.monacoLanguage
                  && r.language.starterCode == dto.starterCode
                  && (r.language.isActive <==> dto.isActive != Some(false))
                  && (dto.orderIndex.Some? ==> r.language.orderIndex == dto.orderIndex.value)
                  && (dto.orderIndex.None? ==>
                        forall id | id in s.rows :: s.rows[id].orderIndex < r.language.orderIndex)
                  && (dto.orderIndex.None? && s.rows != map[] ==>
                        exists id | id in s.rows :: s.rows[id].orderIndex + 1 == r.language.orderIndex)
                  && (dto.orderIndex.None? && s.rows == map[] ==> r.language.orderIndex == 1)
                  && ReadBack(slugify, s, Create(dto), r.language.id) == r
                  && ReadBackSlug(slugify, s, Create(dto), slugify(dto.name)) == r))
  {
    var (t, r) := Step(slugify, s, Create(dto));
    if !r.Conflict? {
      ReadBackIsTable(slugify, s, Create(dto), r.language.id);
      StepRefines(slugify, s, Create(dto));
      CreatedSlug(slugify, s, dto);
    }
  }

  lemma CreatedSlug(slugify: string -> string, s: State, dto: CreateDto)
    requires Coherent(s) && Step(slugify, s, Create(dto)).1.Found?
    ensures ReadBackSlug(slugify, s, Create(dto), slugify(dto.name)) == Step(slugify, s, Create(dto)).1
  {
    var t := Step(slugify, s, Create(dto)).0;
    var slug := slugify(dto.name);
    assert BySlugKey(slug) !in s.cache;
    assert s.nextId in t.rows && t.rows[s.nextId].slug == slug;
    assert SlugOwner(t.rows, slug) == Some(s.nextId);
  }

  /** Reordering gives each listed language the last position it is listed at, and changes nothing else. */
  lemma {:induction false} ReorderMeans(rows: map<int, Language>, ids: seq<int>, n: nat, id: int)
    requires n <= |ids|
    ensures id in ReorderRows(rows, ids, n) <==> id in rows
    ensures id in rows ==>
      var now := ReorderRows(rows, ids, n)[id];
      && now == rows[id].(orderIndex := now.orderIndex)
      && (if exists i :: 0 <= i < n && ids[i] == id
          then 0 <= now.orderIndex < n && ids[now.orderIndex] == id
               && forall i | now.orderIndex < i < n :: ids[i] != id
          else now == rows[id])
  {
    if n > 0 {
      ReorderMeans(rows, ids, n - 1, id);
    }
  }

  // ---------------------------------------------------------------- runs

  ghost function After(slugify: string -> string, s0: State, ops: seq<Op>, k: nat): State
    requires k <= |ops|
  {
    if k == 0 then s0 else Step(slugify, After(slugify, s0, ops, k - 1), ops[k - 1]).0
  }

  ghost function PlainAfter(slugify: string -> string, t0: Table, ops: seq<Op>, k: nat): Table
    requires k <= |ops|
  {
    if k == 0 then t0 else PlainStep(slugify, PlainAfter(slugify, t0, ops, k - 1), ops[k - 1]).0
  }

  /** Any table, and a cold cache. */
  predicate IsRun(s0: State, ops: seq<Op>) {
    TableOk(s0.rows, s0.nextId) && s0.cache == map[] && forall i | 0 <= i < |ops| :: ValidOp(ops[i])
  }

  lemma {:induction false} RunsStayCoherent(slugify: string -> string, s0: State, ops: seq<Op>, k: nat)
    requires IsRun(s0, ops) && k <= |ops|
    ensures var s := After(slugify, s0, ops, k);
            Coherent(s) && PlainAfter(slugify, Table(s0.rows, s0.nextId), ops, k) == Table(s.rows, s.nextId)
  {
    if k > 0 {
      RunsStayCoherent(slugify, s0, ops, k - 1);
      StepRefines(slugify, After(slugify, s0, ops, k - 1), ops[k - 1]);
    }
  }

  /**
   Main result: over any run the cached service refines the uncached one.  The table evolves
   identically and every reply is the same, but for lookups by slug, which agree on NotFound
   and on the id, slug and name of the row found.
   */
  lemma CachedRefinesPlain(slugify: string -> string, s0: State, ops: seq<Op>, k: nat)
    requires IsRun(s0, ops) && k < |ops|
    ensures var s, t := After(slugify, s0, ops, k), PlainAfter(slugify, Table(s0.rows, s0.nextId), ops, k);
            && s.rows == t.rows
            && RepliesAgree(ops[k], Step(slugify, s, ops[k]).1, PlainStep(slugify, t, ops[k]).1)
  {
    RunsStayCoherent(slugify, s0, ops, k);
    StepRefines(slugify, After(slugify, s0, ops, k), ops[k]);
  }

  /**
   A lookup by slug, then any other operations, then a lookup of the id it gave: the first one names
   the owner of the slug, and the second one gives that id's live row, or NotFound once it is deleted.
   */
  lemma SlugThenIdIsLive(slugify: string -> string, s0: State, ops: seq<Op>, k: nat, m: nat, slug: string)
    requires IsRun(s0, ops) && k < m <= |ops| && ops[k] == FindBySlug(slug)
    ensures var s, s' := After(slugify, s0, ops, k), After(slugify, s0, ops, m);
            var r := Step(slugify, s, ops[k]).1;
            if r.Found? then
              r.language.id in s.rows && s.rows[r.language.id].slug == slug
              && LoadById(s', r.language.id).1
                 == (if r.language.id in s'.rows then Found(s'.rows[r.language.id]) else NotFound)
            else forall id | id in s.rows :: s.rows[id].slug != slug
  {
    RunsStayCoherent(slugify, s0, ops, k);
    RunsStayCoherent(slugify, s0, ops, m);
    var s := After(slugify, s0, ops, k);
    LoadBySlugKeeps(s, slug);
    var r := LoadBySlug(s, slug).1;
    if r.Found? {
      LoadByIdKeeps(After(slugify, s0, ops, m), r.language.id);
    }
  }

  // ---------------------------------------------------------------- when a lookup by slug is exact

  /** The entry of a slug is only written by the lookup that misses it, and then stays as it is until dropped. */
  lemma SlugEntryStep(slugify: string -> string, s: State, op: Op, slug: string)
    ensures var t, key := Step(slugify, s, op).0, BySlugKey(slug);
            key in t.cache ==>
              if key in s.cache then t.cache[key] == s.cache[key]
              else op == FindBySlug(slug) && t.rows == s.rows
                   && SlugOwner(s.rows, slug).Some? && t.cache[key] == s.rows[SlugOwner(s.rows, slug).value]
  {
    forall other: string ensures BySlugKey(other) == BySlugKey(slug) ==> other == slug {
      KeysApart(0, 0, slug, other);
    }
    forall id: int ensures ByIdKey(id) != BySlugKey(slug) {
      KeysApart(id, id, slug, slug);
    }
    hide ByIdKey, BySlugKey, Mutate, CreateStep, ReorderRows;
  }

  /** The step whose lookup filled the entry that is still cached for the slug after k steps. */
  ghost function FilledAt(slugify: string -> string, s0: State, ops: seq<Op>, k: nat, slug: string): (f: nat)
    requires IsRun(s0, ops) && k <= |ops| && BySlugKey(slug) in After(slugify, s0, ops, k).cache
    ensures f < k && ops[f] == FindBySlug(slug) && BySlugKey(slug) !in After(slugify, s0, ops, f).cache
  {
    SlugEntryStep(slugify, After(slugify, s0, ops, k - 1), ops[k - 1], slug);
    if BySlugKey(slug) in After(slugify, s0, ops, k - 1).cache then FilledAt(slugify, s0, ops, k - 1, slug) else k - 1
  }

  /** Since that step the slug has always been cached. */
  lemma {:induction false} CachedSinceFill(slugify: string -> string, s0: State, ops: seq<Op>, k: nat, slug: string,
                                           j: nat)
    requires IsRun(s0, ops) && k <= |ops| && BySlugKey(slug) in After(slugify, s0, ops, k).cache
    requires FilledAt(slugify, s0, ops, k, slug) < j <= k
    ensures BySlugKey(slug) in After(slugify, s0, ops, j).cache
  {
    hide Step, BySlugKey;
    if j < k {
      CachedSinceFill(slugify, s0, ops, k - 1, slug, j);
    }
  }

  /** The entry is the row that its id had when it was filled. */
  lemma {:induction false} EntryIsRowAtFill(slugify: string -> string, s0: State, ops: seq<Op>, k: nat, slug: string)
    requires IsRun(s0, ops) && k <= |ops| && BySlugKey(slug) in After(slugify, s0, ops, k).cache
    ensures var c := After(slugify, s0, ops, k).cache[BySlugKey(slug)];
            var was := After(slugify, s0, ops, FilledAt(slugify, s0, ops, k, slug)).rows;
            c.id in was && was[c.id] == c
  {
    hide Step, BySlugKey;
    SlugEntryStep(slugify, After(slugify, s0, ops, k - 1), ops[k - 1], slug);
    if BySlugKey(slug) in After(slugify, s0, ops, k - 1).cache {
      EntryIsRowAtFill(slugify, s0, ops, k - 1, slug);
    } else {
      RunsStayCoherent(slugify, s0, ops, k - 1);
    }
  }

  lemma OwnerIsUnique(rows: map<int, Language>, nextId: int, slug: string, id: int)
    requires TableOk(rows, nextId) && id in rows && rows[id].slug == slug
    ensures SlugOwner(rows, slug) == Some(id)
  {}

  /**
   Main result: at every point of every run a lookup by slug replies as the uncached service does
   exactly when no entry is cached for the slug, or the row of the id in it is what it was when the
   entry was filled.
   */
  lemma SlugExactIff(slugify: string -> string, s0: State, ops: seq<Op>, k: nat, slug: string)
    requires IsRun(s0, ops) && k <= |ops|
    ensures var s, t := After(slugify, s0, ops, k), PlainAfter(slugify, Table(s0.rows, s0.nextId), ops, k);
            LoadBySlug(s, slug).1 == PlainStep(slugify, t, FindBySlug(slug)).1
            <==> (BySlugKey(slug) in s.cache ==>
                    var id := s.cache[BySlugKey(slug)].id;
                    var was := After(slugify, s0, ops, FilledAt(slugify, s0, ops, k, slug)).rows;
                    id in was && id in s.rows && was[id] == s.rows[id])
  {
    RunsStayCoherent(slugify, s0, ops, k);
    var s := After(slugify, s0, ops, k);
    if BySlugKey(slug) in s.cache {
      EntryIsRowAtFill(slugify, s0, ops, k, slug);
      OwnerIsUnique(s.rows, s.nextId, slug, s.cache[BySlugKey(slug)].id);
    }
  }

  /** An update that leaves the name, or a reorder that lists the language. */
  predicate LeavesEntryBehind(rows: map<int, Language>, op: Op, id: int) {
    || (op.Update? && op.id == id && id in rows && !Renames(rows[id], op.updateDto))
    || (op.Reorder? && id in op.ids)
  }

  /** No other operation changes a row and keeps its slug entry. */
  lemma OnlyTheseLag(slugify: string -> string, s: State, op: Op, slug: string)
    requires Coherent(s) && ValidOp(op)
    requires BySlugKey(slug) in s.cache && BySlugKey(slug) in Step(slugify, s, op).0.cache
    ensures var t, id := Step(slugify, s, op).0, s.cache[BySlugKey(slug)].id;
            && id in s.rows && id in t.rows
            && (t.rows[id] != s.rows[id] ==> LeavesEntryBehind(s.rows, op, id))
  {
    var id := s.cache[BySlugKey(slug)].id;
    assert Describes(s.cache[BySlugKey(slug)], s.rows, slug);
    match op
    case Reorder(ids) => ReorderMeans(s.rows, ids, |ids|, id);
    case Update(_, _) => MutationLag(slugify, s, op, slug);
    case Delete(_, _) => MutationLag(slugify, s, op, slug);
    case SetActive(_, _) => MutationLag(slugify, s, op, slug);
    case _ =>
  }

  lemma MutationLag(slugify: string -> string, s: State, op: Op, slug: string)
    requires Coherent(s) && ValidOp(op) && (op.Update? || op.Delete? || op.SetActive?)
    requires BySlugKey(slug) in s.cache && BySlugKey(slug) in MutateStep(slugify, s, op).0.cache
    ensures var t, id := MutateStep(slugify, s, op).0, s.cache[BySlugKey(slug)].id;
            && id in s.rows && id in t.rows
            && (t.rows[id] != s.rows[id] ==> op.Update? && op.id == id && !Renames(s.rows[id], op.updateDto))
  {
    LoadByIdKeeps(s, op.id);
    if op.id in s.rows {
      MutateKeepsTable(slugify, s.rows, s.nextId, op);
    }
  }

  /** A reorder drops no slug entry. */
  lemma ReorderKeepsSlugs(ids: seq<int>, slug: string)
    ensures BySlugKey(slug) !in ReorderedKeys(ids, |ids|) + {ALL_ACTIVE}
  {
    KeysApart(0, 0, slug, slug);
    NoSlugAmongIds(ids, |ids|, slug);
  }

  lemma {:induction false} NoSlugAmongIds(ids: seq<int>, n: nat, slug: string)
    requires n <= |ids|
    ensures BySlugKey(slug) !in ReorderedKeys(ids, n)
  {
    hide ByIdKey, BySlugKey;
    if n > 0 {
      KeysApart(ids[n - 1], 0, slug, slug);
      NoSlugAmongIds(ids, n - 1, slug);
    }
  }

  /** And these do keep it, whatever they change. */
  lemma TheseKeepTheEntry(slugify: string -> string, s: State, op: Op, slug: string)
    requires Coherent(s) && BySlugKey(slug) in s.cache
    requires LeavesEntryBehind(s.rows, op, s.cache[BySlugKey(slug)].id)
    ensures var t := Step(slugify, s, op).0;
            BySlugKey(slug) in t.cache && t.cache[BySlugKey(slug)] == s.cache[BySlugKey(slug)]
  {
    match op
    case Reorder(ids) => ReorderKeepsSlugs(ids, slug);
    case Update(id, _) =>
      KeysApart(id, id, slug, slug);
      LoadByIdKeeps(s, id);
  }

  /** Between the fill at step f and step k no operation left the entry of this language behind. */
  ghost predicate Undisturbed(slugify: string -> string, s0: State, ops: seq<Op>, f: nat, k: nat, id: int)
    requires k <= |ops|
  {
    forall j: nat | f < j < k :: !LeavesEntryBehind(After(slugify, s0, ops, j).rows, ops[j], id)
  }

  lemma {:induction false} RowKeptSinceFill(slugify: string -> string, s0: State, ops: seq<Op>, k: nat, slug: string)
    requires IsRun(s0, ops) && k <= |ops| && BySlugKey(slug) in After(slugify, s0, ops, k).cache
    ensures var s := After(slugify, s0, ops, k);
            var c := s.cache[BySlugKey(slug)];
            Undisturbed(slugify, s0, ops, FilledAt(slugify, s0, ops, k, slug), k, c.id)
            ==> c.id in s.rows && s.rows[c.id] == c
  {
    hide Step, BySlugKey, LeavesEntryBehind, Coherent, FilledAt, SlugOwner;
    var s := After(slugify, s0, ops, k - 1);
    RunsStayCoherent(slugify, s0, ops, k - 1);
    SlugEntryStep(slugify, s, ops[k - 1], slug);
    if BySlugKey(slug) in s.cache {
      FillStays(slugify, s0, ops, k, slug);
      RowKeptSinceFill(slugify, s0, ops, k - 1, slug);
      OnlyTheseLag(slugify, s, ops[k - 1], slug);
    } else {
      RowAtFill(s, slug, SlugOwner(s.rows, slug).value);
    }
  }

  lemma RowAtFill(s: State, slug: string, id: int)
    requires Coherent(s) && SlugOwner(s.rows, slug) == Some(id)
    ensures id in s.rows && s.rows[id].id == id
  {}

  lemma FillStays(slugify: string -> string, s0: State, ops: seq<Op>, k: nat, slug: string)
    requires IsRun(s0, ops) && 0 < k <= |ops| && BySlugKey(slug) in After(slugify, s0, ops, k).cache
    requires BySlugKey(slug) in After(slugify, s0, ops, k - 1).cache
    ensures FilledAt(slugify, s0, ops, k, slug) == FilledAt(slugify, s0, ops, k - 1, slug)
  {
    hide Step, BySlugKey;
  }

  /** Without one of these since the fill the lookup is exact. */
  lemma ExactUntilLeftBehind(slugify: string -> string, s0: State, ops: seq<Op>, k: nat, slug: string)
    requires IsRun(s0, ops) && k <= |ops| && BySlugKey(slug) in After(slugify, s0, ops, k).cache
    ensures var s, t := After(slugify, s0, ops, k), PlainAfter(slugify, Table(s0.rows, s0.nextId), ops, k);
            Undisturbed(slugify, s0, ops, FilledAt(slugify, s0, ops, k, slug), k, s.cache[BySlugKey(slug)].id)
            ==> LoadBySlug(s, slug).1 == PlainStep(slugify, t, FindBySlug(slug)).1
  {
    hide Step, BySlugKey, Undisturbed, Coherent, FilledAt, SlugOwner, PlainStep, LoadBySlug;
    RowKeptSinceFill(slugify, s0, ops, k, slug);
    EntryIsRowAtFill(slugify, s0, ops, k, slug);
    SlugExactIff(slugify, s0, ops, k, slug);
  }

  /**
   The invariant on slug entries is the strongest there is: whatever two rows agree on id, name
   and slug, there is a run after which one is cached under the slug and the other is live.
   */
  lemma OtherColumnsMayLag(slugify: string -> string, cached: Language, live: Language) returns (ops: seq<Op>)
    requires cached.id == live.id == 1 && cached.name == live.name && cached.slug == live.slug == slugify(live.name)
    ensures IsRun(State(map[], 1, map[]), ops)
    ensures var s := After(slugify, State(map[], 1, map[]), ops, |ops|);
            && s.rows == map[1 := live]
            && BySlugKey(live.slug) in s.cache && s.cache[BySlugKey(live.slug)] == cached
  {
    var update := Update(1, UpdateDto(None, Some(live.judge0Id), Some(live.monacoLanguage), Some(live.isActive),
                                      Some(live.orderIndex), Some(live.starterCode)));
    ops := FilledRun(slugify, cached, update);
    var s0, s2 := State(map[], 1, map[]), After(slugify, State(map[], 1, map[]), ops, 2);
    KeysApart(1, 1, live.slug, live.slug);
    assert After(slugify, s0, ops, 3) == MutateStep(slugify, s2, update).0;
  }

  /** A language is created and looked up by its slug; then comes the last operation. */
  lemma FilledRun(slugify: string -> string, cached: Language, last: Op) returns (ops: seq<Op>)
    requires cached.id == 1 && cached.slug == slugify(cached.name) && ValidOp(last)
    ensures IsRun(State(map[], 1, map[]), ops) && |ops| == 3 && ops[2] == last
    ensures After(slugify, State(map[], 1, map[]), ops, 2)
         == State(map[1 := cached], 2, map[BySlugKey(cached.slug) := cached])
  {
    var s0 := State(map[], 1, map[]);
    var create := Create(CreateDto(cached.name, cached.judge0Id, cached.monacoLanguage, Some(cached.isActive),
                                   Some(cached.orderIndex), cached.starterCode));
    ops := [create, FindBySlug(cached.slug), last];
    var s1 := After(slugify, s0, ops, 1);
    assert s1 == Step(slugify, s0, create).0 by { assert After(slugify, s0, ops, 0) == s0; }
    assert s1 == State(map[1 := cached], 2, map[]);
    assert SlugOwner(s1.rows, cached.slug) == Some(1) by { assert 1 in s1.rows && s1.rows[1].slug == cached.slug; }
    assert After(slugify, s0, ops, 2) == Step(slugify, s1, FindBySlug(cached.slug)).0;
  }

  /** The same by a reorder: the entry keeps the position it was filled with. */
  lemma ReorderMayLag(slugify: string -> string, cached: Language, ids: seq<int>) returns (ops: seq<Op>)
    requires cached.id == 1 && cached.slug == slugify(cached.name) && 1 in ids
    ensures IsRun(State(map[], 1, map[]), ops) && |ops| == 3 && ops[2] == Reorder(ids)
    ensures var s := After(slugify, State(map[], 1, map[]), ops, 3);
            && 1 in s.rows && s.rows[1] == cached.(orderIndex := s.rows[1].orderIndex)
            && 0 <= s.rows[1].orderIndex < |ids| && ids[s.rows[1].orderIndex] == 1
            && (forall i | s.rows[1].orderIndex < i < |ids| :: ids[i] != 1)
            && LoadBySlug(s, cached.slug).1 == Found(cached)
            && LoadById(s, 1).1 == Found(s.rows[1])
  {
    ops := FilledRun(slugify, cached, Reorder(ids));
    var s0, s2 := State(map[], 1, map[]), After(slugify, State(map[], 1, map[]), ops, 2);
    var s := After(slugify, s0, ops, 3);
    ReorderMeans(s2.rows, ids, |ids|, 1);
    RunsStayCoherent(slugify, s0, ops, 3);
    LoadByIdKeeps(s, 1);
    ReorderKeepsSlugs(ids, cached.slug);
  }

  // ---------------------------------------------------------------- the service

  class ProgrammingLanguageService {
    const slugify: string -> string
    var rows: map<int, Language>
    var nextId: int
    var cache: map<string, Language>

    constructor (slugify: string -> string)
      ensures Snapshot() == State(map[], 1, map[]) && this.slugify == slugify
    {
      this.slugify := slugify;
      rows, nextId, cache := map[], 1, map[];
    }

    ghost function Snapshot(): State
      reads this
    {
      State(rows, nextId, cache)
    }

    /** findById, wrapped by Cacheable. */
    method FindLanguageById(id: int) returns (r: Reply)
      modifies this`cache
      ensures (Snapshot(), r) == Step(slugify, old(Snapshot()), FindById(id))
    {
      var key := ByIdKey(id);
      if key in cache {
        return Found(cache[key]);
      }
      if id !in rows {
        return NotFound;
      }
      cache := cache[key := rows[id]];
      r := Found(rows[id]);
    }

    /** findBySlug, wrapped by Cacheable. */
    method FindLanguageBySlug(slug: string) returns (r: Reply)
      requires TableOk(rows, nextId)
      modifies this`cache
      ensures (Snapshot(), r) == Step(slugify, old(Snapshot()), FindBySlug(slug))
    {
      var key := BySlugKey(slug);
      if key in cache {
        return Found(cache[key]);
      }
      if !SlugTaken(rows, slug) {
        return NotFound;
      }
      var id :| id in rows && rows[id].slug == slug;
      cache := cache[key := rows[id]];
      r := Found(rows[id]);
    }

    method CreateLanguage(dto: CreateDto) returns (r: Reply)
      modifies this`rows, this`nextId
      ensures (Snapshot(), r) == Step(slugify, old(Snapshot()), Create(dto))
    {
      var slug := slugify(dto.name);
      if NameTaken(rows, dto.name) {
        return Conflict;
      }
      if SlugTaken(rows, slug) {
        return Conflict;
      }
      var order := 1;
      if dto.orderIndex.Some? {
        order := dto.orderIndex.value;
      } else {
        var orders := set id | id in rows :: rows[id].orderIndex;
        if orders != {} {
          ghost var witnessed := Greatest(orders);
          var max :| max in orders && forall x | x in orders :: x <= max;
          order := max + 1;
        }
      }
      var active := if dto.isActive.Some? then dto.isActive.value else true;
      var row := Language(nextId, dto.name, slug, dto.judge0Id, dto.monacoLanguage, active, order, dto.starterCode);
      rows := rows[row.id := row];
      nextId := nextId + 1;
      r := Found(row);
    }

    /** update, inside CacheInvalidate. */
    method UpdateLanguage(id: int, dto: UpdateDto) returns (r: Reply)
      modifies this`rows, this`cache
      ensures (Snapshot(), r) == Step(slugify, old(Snapshot()), Update(id, dto))
    {
      var loaded := FindLanguageById(id);
      if !loaded.Found? {
        return NotFound;
      }
      var language := loaded.language;
      var slug := language.slug;
      ghost var dropped := {ByIdKey(id)};
      if dto.name.Some? && dto.name.value != "" && dto.name.value != language.name {
        slug := slugify(dto.name.value);
        if NameTaken(rows, dto.name.value) {
          return Conflict;
        }
        if exists o | o in rows :: rows[o].slug == slug && o != id {
          return Conflict;
        }
        cache := cache - {BySlugKey(language.slug)};
        dropped := {ByIdKey(id), BySlugKey(language.slug)};
      }
      language := Assign(language, dto, slug);
      rows := rows[language.id := language];
      cache := cache - {ByIdKey(id)};
      assert cache == LoadById(old(Snapshot()), id).0.cache - dropped;
      r := Found(language);
    }

    /** delete, inside CacheInvalidate; inUse tells whether a foreign key still refers to the row. */
    method DeleteLanguage(id: int, inUse: bool) returns (r: Reply)
      modifies this`rows, this`cache
      ensures (Snapshot(), r) == Step(slugify, old(Snapshot()), Delete(id, inUse))
    {
      var loaded := FindLanguageById(id);
      if !loaded.Found? {
        return NotFound;
      }
      if inUse {
        return Conflict;
      }
      rows := rows - {id};
      cache := cache - {BySlugKey(loaded.language.slug)};
      cache := cache - {ByIdKey(id)};
      assert cache == LoadById(old(Snapshot()), id).0.cache - {ByIdKey(id), BySlugKey(loaded.language.slug)};
      r := Done;
    }

    /** activate and deactivate, inside CacheInvalidate. */
    method SetLanguageActive(id: int, active: bool) returns (r: Reply)
      modifies this`rows, this`cache
      ensures (Snapshot(), r) == Step(slugify, old(Snapshot()), SetActive(id, active))
    {
      var loaded := FindLanguageById(id);
      if !loaded.Found? {
        return NotFound;
      }
      var language := loaded.language;
      if language.isActive == active {
        cache := cache - {ByIdKey(id)};
        return Found(language);
      }
      language := language.(isActive := active);
      rows := rows[language.id := language];
      cache := cache - {BySlugKey(language.slug)};
      cache := cache - {ByIdKey(id)};
      assert cache == LoadById(old(Snapshot()), id).0.cache - {ByIdKey(id), BySlugKey(language.slug)};
      r := Found(language);
    }

    method ReorderLanguages(ids: seq<int>)
      modifies this`rows, this`cache
      ensures (Snapshot(), Done) == Step(slugify, old(Snapshot()), Reorder(ids))
    {
      hide ByIdKey;
      var i := 0;
      while i < |ids|
        invariant i <= |ids|
        invariant rows == ReorderRows(old(rows), ids, i)
        invariant cache == old(cache) - ReorderedKeys(ids, i)
      {
        var id := ids[i];
        if id in rows {
          rows := rows[id := rows[id].(orderIndex := i)];
        }
        cache := cache - {ByIdKey(id)};
        assert cache == old(cache) - ReorderedKeys(ids, i + 1);
        i := i + 1;
      }
      cache := cache - {ALL_ACTIVE};
    }
  }
}
