/** Verdicts on file contents and the cache of contents found clean
    (agent/internal/ai/ai.go:212-255, 344-468). What the findings say does not
    change while the cache is in use. */
module Cleared {
  import opened Text

  const CLEAR_MIN: int := 90

  datatype Verdict = Verdict(sha: string, verdict: string, confidence: int, reason: string, model: string,
                             at: int, injected: bool, cut: string, source: string, size: int)

  type Table = map<string, Verdict>

  predicate FleetAdmin(v: Verdict) { v.source == "fleet" && v.model == "admin" }

  /** Decided by a person: on this server, or for all of them. */
  predicate Administrative(v: Verdict) { v.source == "admin" || FleetAdmin(v) }

  predicate Clears(v: Verdict) {
    v.verdict == "clean" && v.confidence >= CLEAR_MIN && (FleetAdmin(v) || v.source == "admin" || v.source == "ai_kept")
  }

  // ---- the table

  /** A save that is not let through: an administrator decided, or a kept file
      would get another clean verdict. */
  predicate Kept(t: Table, v: Verdict) {
    && !Administrative(v) && v.sha in t
    && (t[v.sha].source == "admin" || (t[v.sha].source == "ai_kept" && v.verdict == "clean"))
  }

  function Stored(t: Table, v: Verdict): Verdict {
    if v.size <= 0 && v.sha in t then v.(size := t[v.sha].size) else v
  }

  function SaveTo(t: Table, v: Verdict): Table { if Kept(t, v) then t else t[v.sha := Stored(t, v)] }

  /** The marking, done once, of content whose quarantine an AI verdict had undone. */
  function MarkKept(t: Table, restored: set<string>): Table {
    map s | s in t :: if t[s].source == "ai" && t[s].verdict == "clean" && t[s].confidence >= CLEAR_MIN && s in restored
                      then t[s].(source := "ai_kept") else t[s]
  }

  /** What the query over the table finds: content an untrusted signature
      caught only counts when an administrator of this server cleared it. */
  predicate TableClears(t: Table, untrusted: set<string>, s: string) {
    s in t && Clears(t[s]) && (t[s].source == "admin" || s == "" || s !in untrusted)
  }

  function SetOf(t: Table, untrusted: set<string>): set<string> { set s | s in t && TableClears(t, untrusted, s) }

  function AdminOf(t: Table, untrusted: set<string>): set<string> {
    set s | s in t && TableClears(t, untrusted, s) && t[s].source == "admin"
  }

  /** Keys are the rows' own hashes. */
  ghost predicate TableOK(t: Table) { forall s :: s in t ==> t[s].sha == s }

  /** What the cache makes of a saved verdict. */
  predicate NoteClears(untrusted: set<string>, v: Verdict) { Clears(v) && (v.source == "admin" || v.sha !in untrusted) }

  /** The query ignores findings without a hash; the cache's test does not. */
  predicate Differs(untrusted: set<string>, v: Verdict) { v.sha == "" && "" in untrusted && Clears(v) && v.source != "admin" }

  /** A save that goes through keeps the cache equal to the table, for exactly
      the verdicts on which the two tests agree. */
  lemma NoteAgrees(t: Table, untrusted: set<string>, v: Verdict)
    requires TableOK(t) && !Kept(t, v)
    ensures var t' := SaveTo(t, v); var c := NoteClears(untrusted, v);
      && TableOK(t')
      && ((SetOf(t', untrusted) == (if c then SetOf(t, untrusted) + {v.sha} else SetOf(t, untrusted) - {v.sha})
           && AdminOf(t', untrusted) == if c && v.source == "admin" then AdminOf(t, untrusted) + {v.sha} else AdminOf(t, untrusted) - {v.sha})
          <==> !Differs(untrusted, v))
  {
    var t' := SaveTo(t, v);
    var c := NoteClears(untrusted, v);
    assert t'[v.sha] == Stored(t, v) && Clears(t'[v.sha]) == Clears(v) && t'[v.sha].source == v.source;
    forall s | s != v.sha ensures TableClears(t', untrusted, s) == TableClears(t, untrusted, s) {}
    assert TableClears(t', untrusted, v.sha) <==> Clears(v) && (v.source == "admin" || v.sha == "" || v.sha !in untrusted);
    var want := if c then SetOf(t, untrusted) + {v.sha} else SetOf(t, untrusted) - {v.sha};
    assert v.sha in want <==> c;
    assert v.sha in SetOf(t', untrusted) <==> TableClears(t', untrusted, v.sha);
  }

  // ---- who clears content

  /** An AI verdict clears nothing: whatever a load finds cleared after it was
      saved, it would have found before. */
  lemma OnlyAdvises(t: Table, untrusted: set<string>, v: Verdict, s: string)
    requires v.source != "admin" && v.source != "ai_kept" && (v.source != "fleet" || v.model != "admin")
    ensures TableClears(SaveTo(t, v), untrusted, s) ==> TableClears(t, untrusted, s)
  {}

  /** An administrator's verdict of this server decides alone: clean and sure, it
      clears the content whatever is known of it, and otherwise flags it. */
  lemma AdminDecides(t: Table, untrusted: set<string>, v: Verdict)
    requires v.source == "admin"
    ensures TableClears(SaveTo(t, v), untrusted, v.sha) <==> v.verdict == "clean" && v.confidence >= 90
  {}

  /** A decision on the portal does the same, but for content an untrusted
      signature caught. */
  lemma PortalDecides(t: Table, untrusted: set<string>, v: Verdict)
    requires v.source == "fleet" && v.model == "admin"
    ensures TableClears(SaveTo(t, v), untrusted, v.sha) <==>
      v.verdict == "clean" && v.confidence >= 90 && (v.sha == "" || v.sha !in untrusted)
  {}

  /** The marking clears exactly the content the AI had put back: sure and clean,
      and not caught by an untrusted signature. */
  lemma MarkingClears(t: Table, restored: set<string>, untrusted: set<string>, s: string)
    ensures TableClears(MarkKept(t, restored), untrusted, s) <==>
      TableClears(t, untrusted, s)
      || (s in t && t[s].source == "ai" && t[s].verdict == "clean" && t[s].confidence >= 90 && s in restored && (s == "" || s !in untrusted))
  {}

  // ---- runs of saves

  function Saves(t: Table, vs: seq<Verdict>): Table {
    if vs == [] then t else SaveTo(Saves(t, vs[..|vs| - 1]), vs[|vs| - 1])
  }

  /** A row an administrator decided is only ever replaced by an
      administrator's decision; and one kept by the AI's own earlier clearing
      by nothing that says clean but that. */
  lemma {:induction false} AdminStays(t: Table, vs: seq<Verdict>, s: string)
    requires s in t
    ensures s in Saves(t, vs)
    ensures t[s].source == "admin" ==>
      Saves(t, vs)[s] == t[s] || exists k :: 0 <= k < |vs| && vs[k].sha == s && Administrative(vs[k])
    ensures t[s].source == "ai_kept" ==>
      Saves(t, vs)[s] == t[s] || exists k :: 0 <= k < |vs| && vs[k].sha == s && (Administrative(vs[k]) || vs[k].verdict != "clean")
    decreases |vs|
  {
    if vs != [] { AdminStays(t, vs[..|vs| - 1], s); }
  }

  // ---- the program

  class Database {
    var table: Table
    var keptDone: bool
    const untrusted: set<string>
    const restored: set<string>

    constructor (table: Table, untrusted: set<string>, restored: set<string>)
      ensures this.table == table && !keptDone && this.untrusted == untrusted && this.restored == restored
    {
      this.table, this.untrusted, this.restored := table, untrusted, restored;
      keptDone := false;
    }

    /** What a load would see. */
    function Loadable(): Table
      reads this
    {
      if keptDone then table else MarkKept(table, restored)
    }

    method KeepAIRestored()
      modifies this
      ensures keptDone && table == old(Loadable())
    {
      if keptDone { return; }
      table := MarkKept(table, restored);
      keptDone := true;
    }
  }

  class Cache {
    var db: Database?
    var sums: set<string>  // cleared contents
    var admin: set<string>  // cleared by an administrator

    constructor ()
      ensures db == null
    {
      db := null;
      sums, admin := {}, {};
    }

    /** The cache holds what a load would read now. */
    ghost predicate Valid()
      reads this, db
    {
      db != null ==>
        && db.keptDone && TableOK(db.table)
        && sums == SetOf(db.table, db.untrusted) && admin == AdminOf(db.table, db.untrusted)
    }

    method LoadCleared(d: Database)
      requires TableOK(d.table)
      modifies this, d
      ensures Valid() && db == d && d.table == old(d.Loadable())
    {
      d.KeepAIRestored();
      sums, admin := {}, {};
      var todo := d.table.Keys;
      while todo != {}
        invariant todo <= d.table.Keys
        invariant sums == set s | s in d.table && s !in todo && TableClears(d.table, d.untrusted, s)
        invariant admin == set s | s in d.table && s !in todo && TableClears(d.table, d.untrusted, s) && d.table[s].source == "admin"
        invariant d.keptDone && d.table == old(d.Loadable())
        decreases todo
      {
        var s :| s in todo;
        todo := todo - {s};
        if TableClears(d.table, d.untrusted, s) {
          sums := sums + {s};
          if d.table[s].source == "admin" { admin := admin + {s}; }
        }
      }
      db := d;
    }

    /** Reports what the table clears, loading it on first use. */
    method IsCleared(d: Database, sha: string) returns (ok: bool)
      requires Valid() && TableOK(d.table)
      modifies this, d
      ensures Valid() && db == d && d.table == old(d.Loadable())
      ensures ok <==> TableClears(d.table, d.untrusted, sha)
    {
      if db != d { LoadCleared(d); }
      ok := sha in sums;
    }

    method AdminCleared(d: Database, sha: string) returns (ok: bool)
      requires Valid() && TableOK(d.table)
      modifies this, d
      ensures Valid() && db == d
      ensures ok <==> TableClears(d.table, d.untrusted, sha) && d.table[sha].source == "admin"
    {
      ok := IsCleared(d, sha);
      if ok { ok := sha in admin; }
    }

    method NoteCleared(d: Database, v: Verdict)
      modifies this
      ensures db == old(db) && (db != d ==> sums == old(sums) && admin == old(admin))
      ensures db == d ==> var c := NoteClears(d.untrusted, v);
        && sums == (if c then old(sums) + {v.sha} else old(sums) - {v.sha})
        && admin == if c && v.source == "admin" then old(admin) + {v.sha} else old(admin) - {v.sha}
    {
      var clears := Clears(v);
      if clears && v.source != "admin" && v.sha in d.untrusted { clears := false; }
      if db != d { return; }
      if clears {
        sums := sums + {v.sha};
        admin := if v.source == "admin" then admin + {v.sha} else admin - {v.sha};
      } else {
        sums, admin := sums - {v.sha}, admin - {v.sha};
      }
    }

    /** Stores a verdict. The cache stays equal to the table but for one case: a
        clean verdict without a hash, while an untrusted finding has none. */
    method Save(d: Database, v: Verdict)
      requires Valid() && TableOK(d.table)
      modifies this, d
      ensures TableOK(d.table) && db == old(db)
      ensures d.table == SaveTo(old(d.table), v) && d.keptDone == old(d.keptDone)
      ensures Valid() <==> db != d || Kept(old(d.table), v) || !Differs(d.untrusted, v)
    {
      hide SetOf, AdminOf;
      if v.source != "admin" && !(v.source == "fleet" && v.model == "admin") {
        if v.sha in d.table {
          var was := d.table[v.sha].source;
          if was == "admin" || (was == "ai_kept" && v.verdict == "clean") { return; }
        }
      }
      NoteAgrees(d.table, d.untrusted, v);
      d.table := d.table[v.sha := Stored(d.table, v)];
      NoteCleared(d, v);
    }
  }
}
