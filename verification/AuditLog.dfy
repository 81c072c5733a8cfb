/**
 The audit log's filtered listing, its keyset pagination and the export that pages through it.
 */
module AuditLog {
  import opened Prelude
  import opened Sorting

  /** The fields an event's hash covers. */
  datatype Fields = Fields(
    id: string, actor: string, action: string, resourceType: string, resourceId: string,
    result: string, at: int, metadata: string)

  datatype Event = Event(fields: Fields, prevHash: string, eventHash: string)

  // ---------------------------------------------------------------- order and queries

  /** ORDER BY created_at DESC, id DESC. */
  predicate NewerOrSame(a: Event, b: Event) {
    a.fields.at > b.fields.at || (a.fields.at == b.fields.at && StringLeq(b.fields.id, a.fields.id))
  }

  datatype Cursor = Cursor(at: int, id: string)

  function CursorOf(e: Event): Cursor {
    Cursor(e.fields.at, e.fields.id)
  }

  /** The keyset condition: strictly after the cursor in the listing order. */
  predicate Beyond(c: Option<Cursor>, e: Event) {
    c.None?
    || e.fields.at < c.value.at
    || (e.fields.at == c.value.at && e.fields.id != c.value.id && StringLeq(e.fields.id, c.value.id))
  }

  datatype Engine = SQLite | PostgreSQL

  /** The database's engine and the wanted fields; an empty one admits everything. */
  datatype ListFilter = ListFilter(engine: Engine, action: string, resourceType: string, result: string, actor: string)

  function TrimSuffix(s: string, c: char): string {
    if s != "" && s[|s| - 1] == c then s[..|s| - 1] else s
  }

  function Fold(c: char): char {
    if 'A' <= c <= 'Z' then c - 'A' + 'a' else c
  }

  /** SQLite's LIKE ignores the case of ASCII letters. */
  predicate SameCharacter(engine: Engine, a: char, b: char) {
    a == b || (engine.SQLite? && Fold(a) == Fold(b))
  }

  /** SQL LIKE: '%' stands for any text, '_' for one character; PostgreSQL takes what follows a backslash literally. */
  predicate Like(engine: Engine, pattern: string, s: string)
    decreases |pattern| + |s|
  {
    if pattern == "" then s == ""
    else if pattern[0] == '%' then Like(engine, pattern[1..], s) || (s != "" && Like(engine, pattern, s[1..]))
    else if pattern[0] == '_' then s != "" && Like(engine, pattern[1..], s[1..])
    else if engine.PostgreSQL? && pattern[0] == '\\' && |pattern| > 1 then
      s != "" && pattern[1] == s[0] && Like(engine, pattern[2..], s[1..])
    else s != "" && SameCharacter(engine, pattern[0], s[0]) && Like(engine, pattern[1..], s[1..])
  }

  predicate Wildcard(engine: Engine, c: char) {
    c == '%' || c == '_' || (engine.PostgreSQL? && c == '\\')
  }

  predicate HasPrefix(engine: Engine, prefix: string, s: string) {
    |prefix| <= |s| && forall i :: 0 <= i < |prefix| ==> SameCharacter(engine, prefix[i], s[i])
  }

  lemma {:induction false} AnyTextMatches(engine: Engine, s: string)
    ensures Like(engine, "%", s)
  {
    assert "%"[1..] == "";
    if s != "" {
      AnyTextMatches(engine, s[1..]);
    }
  }

  /** A prefix free of wildcards selects the actions that begin with it, in any case under SQLite. */
  lemma {:induction false} LikeIsPrefix(engine: Engine, prefix: string, s: string)
    requires forall i :: 0 <= i < |prefix| ==> !Wildcard(engine, prefix[i])
    ensures Like(engine, prefix + "%", s) <==> HasPrefix(engine, prefix, s)
  {
    if prefix == "" {
      assert prefix + "%" == "%";
      AnyTextMatches(engine, s);
    } else {
      var pattern := prefix + "%";
      assert pattern[0] == prefix[0] && pattern[1..] == prefix[1..] + "%";
      if s != "" {
        LikeIsPrefix(engine, prefix[1..], s[1..]);
        assert forall i :: 0 < i < |prefix| && i < |s| ==> prefix[i] == prefix[1..][i - 1] && s[i] == s[1..][i - 1];
        assert forall i :: 0 <= i < |prefix| - 1 && i < |s| - 1 ==> prefix[1..][i] == prefix[i + 1] && s[1..][i] == s[i + 1];
      }
    }
  }

  /** A trailing '*' or '.' asks for every action below the prefix. */
  predicate ActionMatches(engine: Engine, wanted: string, action: string) {
    wanted == ""
    || (if wanted[|wanted| - 1] == '*' || wanted[|wanted| - 1] == '.'
        then Like(engine, TrimSuffix(TrimSuffix(wanted, '*'), '.') + ".%", action)
        else wanted == action)
  }

  /** The text that stands for everything below an action prefix. */
  predicate AsksBelow(wanted: string, prefix: string) {
    || wanted == prefix + ".*" || wanted == prefix + "."
    || (wanted == prefix + "*" && (prefix == "" || prefix[|prefix| - 1] != '.'))
  }

  lemma PrefixIsLeft(wanted: string, prefix: string)
    requires AsksBelow(wanted, prefix)
    ensures wanted != "" && wanted[|wanted| - 1] in "*." && TrimSuffix(TrimSuffix(wanted, '*'), '.') == prefix
  {
    assert (prefix + ".")[..|prefix|] == prefix && (prefix + "*")[..|prefix|] == prefix;
    assert (prefix + ".*")[..|prefix| + 1] == prefix + ".";
  }

  lemma PrefixAsked(engine: Engine, wanted: string, prefix: string, action: string)
    requires AsksBelow(wanted, prefix)
    ensures ActionMatches(engine, wanted, action) <==> Like(engine, prefix + ".%", action)
  {
    PrefixIsLeft(wanted, prefix);
  }

  /** Such a text selects the actions that go on after the prefix and a dot, and the prefix alone is not one of them. */
  lemma BelowMatchesIff(engine: Engine, wanted: string, prefix: string, action: string)
    requires AsksBelow(wanted, prefix)
    requires forall i :: 0 <= i < |prefix| ==> !Wildcard(engine, prefix[i])
    ensures ActionMatches(engine, wanted, action) <==> HasPrefix(engine, prefix + ".", action)
    ensures !ActionMatches(engine, wanted, prefix)
  {
    var stem := prefix + ".";
    assert prefix + ".%" == stem + "%";
    PrefixAsked(engine, wanted, prefix, action);
    PrefixAsked(engine, wanted, prefix, prefix);
    LikeIsPrefix(engine, stem, action);
    LikeIsPrefix(engine, stem, prefix);
  }

  /** Any other text selects the one action it names. */
  lemma PlainActionMatchesIff(engine: Engine, wanted: string, action: string)
    requires wanted != "" && !exists prefix :: AsksBelow(wanted, prefix)
    ensures ActionMatches(engine, wanted, action) <==> wanted == action
  {
    var n := |wanted| - 1;
    assert wanted == wanted[..n] + [wanted[n]];
    if wanted[n] == '.' || (wanted[n] == '*' && (n == 0 || wanted[n - 1] != '.')) {
      assert AsksBelow(wanted, wanted[..n]);
      assert false;
    } else if wanted[n] == '*' {
      assert wanted == wanted[..n - 1] + ".*";
      assert AsksBelow(wanted, wanted[..n - 1]);
      assert false;
    }
  }

  predicate Accepts(f: ListFilter, e: Event) {
    && ActionMatches(f.engine, f.action, e.fields.action)
    && (f.resourceType == "" || f.resourceType == e.fields.resourceType)
    && (f.result == "" || f.result == e.fields.result)
    && (f.actor == "" || f.actor == e.fields.actor)
  }

  /** The whole filtered listing as one sorted query. */
  function Listing(table: seq<Event>, f: ListFilter): seq<Event> {
    SortBy(NewerOrSame, Filter((e: Event) => Accepts(f, e), table))
  }

  function Limit(requested: int): nat {
    if requested <= 0 || requested > 200 then 50 else requested
  }

  /** The rows the query selects from a cursor on, without its limit. */
  function RowsFrom(table: seq<Event>, f: ListFilter, c: Option<Cursor>): seq<Event> {
    SortBy(NewerOrSame, Filter((e: Event) => Accepts(f, e) && Beyond(c, e), table))
  }

  /** The page query: at most limit + 1 rows beyond the cursor. */
  function PageRows(table: seq<Event>, f: ListFilter, c: Option<Cursor>, limit: nat): seq<Event> {
    var rows := RowsFrom(table, f, c);
    if |rows| <= limit + 1 then rows else rows[..limit + 1]
  }

  datatype Page = Page(events: seq<Event>, next: Option<Cursor>)

  /** The table's primary key. */
  ghost predicate UniqueIds(table: seq<Event>) {
    forall i, j :: 0 <= i < j < |table| ==> table[i].fields.id != table[j].fields.id
  }

  lemma NewerOrder()
    ensures TotalPreorder(NewerOrSame)
  {
    StringLeqOrder();
    forall x, y, z | NewerOrSame(x, y) && NewerOrSame(y, z)
      ensures NewerOrSame(x, z)
    {
      if x.fields.at == z.fields.at {
        StringLeqTransitive(z.fields.id, y.fields.id, x.fields.id);
      }
    }
  }

  lemma UniqueIdsOrder(table: seq<Event>, s: seq<Event>)
    requires UniqueIds(table) && forall e :: e in s ==> e in table
    ensures AntisymmetricOn(NewerOrSame, s)
  {
    forall x, y | x in s && y in s && NewerOrSame(x, y) && NewerOrSame(y, x)
      ensures x == y
    {
      StringLeqAntisymmetric(x.fields.id, y.fields.id);
      assert x in table && y in table;
    }
  }

  lemma {:induction false} FilteredOnce(p: Event -> bool, table: seq<Event>)
    requires UniqueIds(table)
    ensures NoDuplicates(Filter(p, table))
  {
    if table != [] {
      FilteredOnce(p, table[1..]);
      FilterMembers(p, table[1..]);
      assert table[0] !in table[1..];
      var rest := Filter(p, table[1..]);
      if p(table[0]) {
        assert Filter(p, table) == [table[0]] + rest;
      } else {
        assert Filter(p, table) == rest;
      }
    }
  }

  /** A sorted query returns each row that satisfies its condition once, newest first. */
  lemma {:induction false} QueryCorrect(p: Event -> bool, table: seq<Event>)
    requires UniqueIds(table)
    ensures var rows := SortBy(NewerOrSame, Filter(p, table));
            && SortedBy(NewerOrSame, rows) && NoDuplicates(rows)
            && (forall e :: e in rows <==> e in table && p(e))
            && AntisymmetricOn(NewerOrSame, rows)
  {
    var found := Filter(p, table);
    var rows := SortBy(NewerOrSame, found);
    NewerOrder();
    SortByCorrect(NewerOrSame, found);
    FilteredOnce(p, table);
    FilterMembers(p, table);
    NoDuplicatesByMultiset(found, rows);
    SameElements(found, rows);
    UniqueIdsOrder(table, rows);
  }

  /** In a strictly ordered listing, the rows beyond the k-th are those the keyset condition selects. */
  lemma BeyondIsSuffix(table: seq<Event>, all: seq<Event>, k: nat, e: Event)
    requires UniqueIds(table) && (forall x :: x in all ==> x in table)
    requires SortedBy(NewerOrSame, all) && NoDuplicates(all)
    requires 0 < k <= |all| && e in all
    ensures Beyond(Some(CursorOf(all[k - 1])), e) <==> e in all[k..]
  {
    var last := all[k - 1];
    var i :| 0 <= i < |all| && all[i] == e;
    assert last in table && e in table;
    if i >= k {
      assert all[k..][i - k] == e;
      assert NewerOrSame(last, e);
    } else {
      assert forall j :: k <= j < |all| ==> all[i] != all[j];
      if i < k - 1 {
        assert NewerOrSame(e, last);
      }
      if Beyond(Some(CursorOf(last)), e) {
        StringLeqAntisymmetric(e.fields.id, last.fields.id);
      }
    }
  }

  /** The page query at a cursor refines the one big query: it returns the listing from there on. */
  lemma PageIsSlice(table: seq<Event>, f: ListFilter, k: nat, c: Option<Cursor>)
    requires UniqueIds(table) && k <= |Listing(table, f)|
    requires c == if k == 0 then None else
                    Some(CursorOf(Listing(table, f)[k - 1]))
    ensures RowsFrom(table, f, c) == Listing(table, f)[k..]
  {
    var accepted := (e: Event) => Accepts(f, e);
    var wanted := (e: Event) => Accepts(f, e) && Beyond(c, e);
    var all := Listing(table, f);
    var rows := SortBy(NewerOrSame, Filter(wanted, table));
    QueryCorrect(accepted, table);
    QueryCorrect(wanted, table);
    forall e
      ensures e in rows <==> e in all[k..]
    {
      if k > 0 && e in all {
        BeyondIsSuffix(table, all, k, e);
      }
      assert e in all[k..] ==> e in all;
    }
    SortedSetUnique(NewerOrSame, rows, all[k..]);
  }

  /** What lies beyond the cursor of the k-th row is what follows it. */
  lemma CursorResumes(table: seq<Event>, f: ListFilter, c: Option<Cursor>, k: nat)
    requires UniqueIds(table) && 0 < k <= |RowsFrom(table, f, c)|
    ensures var all := RowsFrom(table, f, c);
            forall e :: e in all ==> (Beyond(Some(CursorOf(all[k - 1])), e) <==> e in all[k..])
  {
    var all := RowsFrom(table, f, c);
    QueryCorrect((e: Event) => Accepts(f, e) && Beyond(c, e), table);
    forall e | e in all
      ensures Beyond(Some(CursorOf(all[k - 1])), e) <==> e in all[k..]
    {
      BeyondIsSuffix(table, all, k, e);
    }
  }

  /**
   One page: the newest rows beyond the cursor, up to the limit. There is a next cursor exactly
   when more are left, and what lies beyond it is exactly what the page left out.
   */
  method ListPage(table: seq<Event>, f: ListFilter, c: Option<Cursor>, requested: int) returns (page: Page)
    requires UniqueIds(table)
    ensures var n := if |RowsFrom(table, f, c)| < Limit(requested) then |RowsFrom(table, f, c)| else Limit(requested);
            page.events == RowsFrom(table, f, c)[..n]
    ensures |page.events| <= if 1 <= requested <= 200 then requested else 50
    ensures page.next.Some? ==> |page.events| == if 1 <= requested <= 200 then requested else 50
    ensures page.next.Some? <==> |RowsFrom(table, f, c)| > Limit(requested)
    ensures page.next.Some? ==> page.events != [] && page.next.value == CursorOf(page.events[|page.events| - 1])
    ensures forall e :: page.next.Some? && e in RowsFrom(table, f, c) ==>
              (Beyond(page.next, e) <==> e in RowsFrom(table, f, c)[|page.events|..])
  {
    var limit := Limit(requested);
    var events := PageRows(table, f, c, limit);
    ghost var all := RowsFrom(table, f, c);
    var hasMore := |events| > limit;
    if hasMore {
      events := events[..limit];
      assert events == all[..limit];
    }
    page := Page(events, None);
    if hasMore && |events| > 0 {
      var last := events[|events| - 1];
      page := page.(next := Some(CursorOf(last)));
      CursorResumes(table, f, c, limit);
    }
  }

  function CursorAt(all: seq<Event>, k: nat): Option<Cursor>
    requires k <= |all|
  {
    if k == 0 then None else Some(CursorOf(all[k - 1]))
  }

  /** The page after the first k rows of the listing. */
  function PageAt(all: seq<Event>, k: nat, limit: nat): Page
    requires k <= |all| && limit > 0
  {
    if |all| - k > limit then Page(all[k..k + limit], CursorAt(all, k + limit)) else Page(all[k..], None)
  }

  method NextPage(table: seq<Event>, f: ListFilter, k: nat, cursor: Option<Cursor>) returns (page: Page)
    requires UniqueIds(table) && k <= |Listing(table, f)| && cursor == CursorAt(Listing(table, f), k)
    ensures page == PageAt(Listing(table, f), k, 200)
  {
    page := ListPage(table, f, cursor, 200);
    PageIsSlice(table, f, k, cursor);
    ghost var all := Listing(table, f);
    assert RowsFrom(table, f, cursor) == all[k..];
    if |all| - k > 200 {
      assert page.events == all[k..][..200] == all[k..k + 200];
      assert page.events[199] == all[k + 199];
    } else {
      assert page.events == all[k..][..|all[k..]|] == all[k..];
    }
  }

  method WriteLines(before: seq<Event>, events: seq<Event>) returns (lines: seq<Event>)
    ensures lines == before + events
  {
    lines := before;
    for i := 0 to |events|
      invariant lines == before + events[..i]
    {
      lines := lines + [events[i]];
    }
  }

  /**
   ExportNDJSON: on an unchanged table the page loop terminates having written exactly the
   rows of the one sorted query, in its order.
   */
  method ExportNDJSON(table: seq<Event>, f: ListFilter) returns (lines: seq<Event>, count: nat)
    requires UniqueIds(table)
    ensures lines == Listing(table, f) && count == |lines|
  {
    var cursor: Option<Cursor> := None;
    lines, count := [], 0;
    ghost var all := Listing(table, f);
    while true
      invariant count == |lines| <= |all| && lines == all[..count]
      invariant cursor == CursorAt(all, count)
      decreases |all| - count
    {
      var page := NextPage(table, f, count, cursor);
      lines := WriteLines(lines, page.events);
      count := count + |page.events|;
      if page.next.None? {
        break;
      }
      cursor := page.next;
    }
  }

  /** What the export contains: every matching event, each once, newest first. */
  lemma ExportIsComplete(table: seq<Event>, f: ListFilter)
    requires UniqueIds(table)
    ensures var lines := Listing(table, f);
            && (forall e :: e in lines <==> e in table && Accepts(f, e))
            && NoDuplicates(lines)
            && (forall i, j :: 0 <= i < j < |lines| ==>
                  || lines[i].fields.at > lines[j].fields.at
                  || (lines[i].fields.at == lines[j].fields.at && StringLeq(lines[j].fields.id, lines[i].fields.id)))
  {
    QueryCorrect((e: Event) => Accepts(f, e), table);
  }

  /** The action filter of the listing: an action below the prefix asked for, or else the very one. */
  lemma ListedByAction(table: seq<Event>, f: ListFilter, prefix: string, e: Event)
    requires UniqueIds(table) && e in table && f.resourceType == f.result == f.actor == ""
    requires forall i :: 0 <= i < |prefix| ==> !Wildcard(f.engine, prefix[i])
    ensures AsksBelow(f.action, prefix) ==> (e in Listing(table, f) <==> HasPrefix(f.engine, prefix + ".", e.fields.action))
    ensures f.action != "" && (!exists p :: AsksBelow(f.action, p)) ==> (e in Listing(table, f) <==> e.fields.action == f.action)
  {
    ExportIsComplete(table, f);
    if AsksBelow(f.action, prefix) {
      BelowMatchesIff(f.engine, f.action, prefix, e.fields.action);
    } else if f.action != "" && !exists p :: AsksBelow(f.action, p) {
      PlainActionMatchesIff(f.engine, f.action, e.fields.action);
    }
  }

  /** What a listed event has in common with the filter, and that an empty filter lists everything. */
  lemma ListedFields(table: seq<Event>, f: ListFilter, e: Event)
    requires UniqueIds(table) && e in table
    ensures e in Listing(table, f) ==>
              && (f.actor == "" || f.actor == e.fields.actor) && (f.result == "" || f.result == e.fields.result)
              && (f.resourceType == "" || f.resourceType == e.fields.resourceType)
    ensures var own := ListFilter(f.engine, "", e.fields.resourceType, e.fields.result, e.fields.actor);
            e in Listing(table, own) && e in Listing(table, ListFilter(f.engine, "", "", "", ""))
  {
    ExportIsComplete(table, f);
    ExportIsComplete(table, ListFilter(f.engine, "", e.fields.resourceType, e.fields.result, e.fields.actor));
    ExportIsComplete(table, ListFilter(f.engine, "", "", "", ""));
  }
}
