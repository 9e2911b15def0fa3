/** The `.dat` manipulator: a deck held as an ordered list of names, each
    naming a chapter, a program or a system directive kept in one of three
    dictionaries.  Names are compared upper-cased. */
module Manipulator {
  import opened Failures
  import opened Builtins
  import opened Directive
  import opened Program
  import opened Chapter
  import opened DeckStructure

  /** Each key order lists its keys once and upper-cased, as `dict` keeps
      insertion order, and a name is in the order list exactly when it is
      a key of one of the three dictionaries. */
  ghost predicate Registered(order: seq<string>, chapterKeys: seq<string>, programKeys: seq<string>,
                             directiveKeys: seq<string>)
  {
    Unique(chapterKeys) && Unique(programKeys) && Unique(directiveKeys) &&
    (forall k :: k in order <==> k in chapterKeys || k in programKeys || k in directiveKeys) &&
    (forall k :: k in chapterKeys ==> Upper(k) == k) &&
    (forall k :: k in programKeys ==> Upper(k) == k) &&
    (forall k :: k in directiveKeys ==> Upper(k) == k)
  }

  /** A key order after `dict.update` with `key`: a new key goes last, an
      existing one keeps its place. */
  function Touch(keys: seq<string>, key: string): (r: seq<string>)
    ensures forall k :: k in r <==> k in keys || k == key
    ensures Unique(keys) ==> Unique(r)
  {
    if key in keys then keys else keys + [key]
  }

  /** Listing an upper-case key at the end keeps the registry consistent,
      whichever dictionary it goes into. */
  lemma TouchKeepsRegistered(order: seq<string>, chapterKeys: seq<string>, programKeys: seq<string>,
                             directiveKeys: seq<string>, key: string)
    requires Registered(order, chapterKeys, programKeys, directiveKeys) && Upper(key) == key
    ensures Registered(order + [key], Touch(chapterKeys, key), programKeys, directiveKeys)
    ensures Registered(order + [key], chapterKeys, Touch(programKeys, key), directiveKeys)
    ensures Registered(order + [key], chapterKeys, programKeys, Touch(directiveKeys, key))
  {
  }

  /** The programs held by the given chapters. */
  ghost function ProgramsIn(cs: set<SofistikChapter>): set<SofistikProgram>
    reads cs
  {
    set c, p | c in cs && p in c.programs.Values :: p
  }

  /** The directives held by the given chapters. */
  ghost function DirectivesIn(cs: set<SofistikChapter>): set<SystemDirective>
    reads cs
  {
    set c, d | c in cs && d in c.directives.Values :: d
  }

  /** The chapter `c` holds what `img` records: the header's name and flag,
      a program with the recorded rows under each recorded name and no
      other, and a directive of each recorded text under that text and no
      other. */
  ghost predicate Pictures(c: SofistikChapter, img: ChapterImage)
    reads c`name, c`isActive, c`programs, c`directives, c.programs.Values, c.directives.Values
  {
    c.name == img.name && c.isActive == img.active &&
    c.programs.Keys == img.rows.Keys && (forall k :: k in img.rows ==> c.programs[k].content == img.rows[k]) &&
    c.directives.Keys == img.texts && (forall t :: t in img.texts ==> c.directives[t].content == t)
  }

  /** A chapter keeps picturing `img` while neither it nor what it holds
      changes. */
  twostate lemma PicturesKept(pic: (SofistikChapter, ChapterImage))
    requires var (c, img) := pic; old(Pictures(c, img)) && unchanged(c) && unchanged(c.programs.Values, c.directives.Values)
    ensures var (c, img) := pic; Pictures(c, img)
  {
  }

  /** A chapter that took one more program pictures its record with that
      program's rows under the program's name. */
  twostate lemma PicturesJoinedProgram(join: (SofistikChapter, ChapterImage, SofistikProgram))
    requires var (c, img, p) := join; old(Pictures(c, img)) && c.programs == old(c.programs)[p.name := p]
    requires var (c, img, p) := join; c.name == old(c.name) && c.isActive == old(c.isActive) && c.directives == old(c.directives)
    requires var (c, img, p) := join; unchanged(old(c.programs.Values), c.directives.Values)
    ensures var (c, img, p) := join; Pictures(c, img.(rows := img.rows[p.name := p.content]))
  {
  }

  /** A chapter that took one more directive pictures its record with that
      directive's text added. */
  twostate lemma PicturesJoinedDirective(join: (SofistikChapter, ChapterImage, SystemDirective))
    requires var (c, img, d) := join; old(Pictures(c, img)) && c.directives == old(c.directives)[d.content := d]
    requires var (c, img, d) := join; c.name == old(c.name) && c.isActive == old(c.isActive) && c.programs == old(c.programs)
    requires var (c, img, d) := join; unchanged(c.programs.Values, old(c.directives.Values))
    ensures var (c, img, d) := join; Pictures(c, img.(texts := img.texts + {d.content}))
  {
  }

  /** A new key adds exactly its value to a dictionary's values. */
  lemma NewKeyValues<V>(m: map<string, V>, k: string, v: V)
    requires k !in m
    ensures m[k := v].Values == m.Values + {v}
  {
    forall x | x in m[k := v].Values
      ensures x in m.Values + {v}
    {
      var j :| j in m[k := v] && m[k := v][j] == x;
      if j != k {
        assert m[j] == x;
      }
    }
    forall x | x in m.Values
      ensures x in m[k := v].Values
    {
      var j :| j in m && m[j] == x;
      assert m[k := v][j] == x;
    }
    assert m[k := v][k] == v;
  }

  /** A well-formed chapter added under any key keeps every chapter of the
      dictionary well formed. */
  lemma AddedChapterValid(m: map<string, SofistikChapter>, k: string, c: SofistikChapter)
    requires forall x :: x in m.Values ==> x.Valid()
    requires c.Valid()
    ensures forall x :: x in m[k := c].Values ==> x.Valid()
  {
    forall x | x in m[k := c].Values
      ensures x.Valid()
    {
      var j :| j in m[k := c] && m[k := c][j] == x;
      if j != k {
        assert x in m.Values;
      }
    }
  }

  /** A well-formed directive added under any key keeps every directive of
      the dictionary well formed. */
  lemma AddedDirectiveValid(m: map<string, SystemDirective>, k: string, d: SystemDirective)
    requires forall x :: x in m.Values ==> x.Valid()
    requires d.Valid()
    ensures forall x :: x in m[k := d].Values ==> x.Valid()
  {
    forall x | x in m[k := d].Values
      ensures x.Valid()
    {
      var j :| j in m[k := d] && m[k := d][j] == x;
      if j != k {
        assert x in m.Values;
      }
    }
  }

  /** Line `i` of a listing, if there is one, is in upper case. */
  predicate UpperAt(temp: seq<string>, i: nat)
  {
    i < |temp| ==> Upper(temp[i]) == temp[i]
  }

  /** The chapters of a list, as a set. */
  ghost function Members(cs: seq<SofistikChapter>): set<SofistikChapter>
  {
    set c | c in cs
  }

  /** `turn_on` or `turn_off` of one chapter. */
  method SwitchChapter(c: SofistikChapter, active: bool) returns (r: Outcome)
    requires c.Valid()
    modifies c, c.programs.Values, c.directives.Values
    ensures c.Valid() && c.Unchanged(old(c.programs), old(c.directives), old(c.order), old(c.name))
    ensures c.isActive == active
    ensures r == Done <==> forall p :: p in c.programs.Values ==> WithFlag(old(p.content), Flag(active)).Ok?
    ensures r.Raised? ==> r.failure == IndexError
    ensures r == Done ==> forall p :: p in c.programs.Values ==>
      p.content == WithFlag(old(p.content), Flag(active)).value && p.isActive == active
    ensures r == Done ==> forall d :: d in c.directives.Values ==>
      d.Status() == Target(active) && d.content == Switched(old(d.content), old(d.Status()), Target(active))
  {
    if active {
      r := c.TurnOn();
    } else {
      r := c.TurnOff();
    }
  }

  /** A program seen by the switch carries its original rows flagged, one
      not seen yet its original rows. */
  ghost predicate ProgramSwitched(p: SofistikProgram, seen: set<SofistikProgram>,
                                  rows: map<SofistikProgram, seq<string>>, active: bool)
    reads p
  {
    p in rows &&
    if p in seen then
      WithFlag(rows[p], Flag(active)).Ok? && p.content == WithFlag(rows[p], Flag(active)).value &&
      p.isActive == active
    else
      p.content == rows[p]
  }

  ghost predicate ProgramsSwitched(ps: set<SofistikProgram>, seen: set<SofistikProgram>,
                                   rows: map<SofistikProgram, seq<string>>, active: bool)
    reads ps
  {
    forall p :: p in ps ==> ProgramSwitched(p, seen, rows, active)
  }

  /** A directive seen by the switch has been switched from its original
      text and status, one not seen yet keeps them. */
  ghost predicate DirectiveSwitched(d: SystemDirective, seen: set<SystemDirective>,
                                    texts: map<SystemDirective, string>,
                                    states: map<SystemDirective, Status>, active: bool)
    reads d
  {
    d in texts && d in states &&
    if d in seen then
      d.Status() == Target(active) && d.content == Switched(texts[d], states[d], Target(active))
    else
      d.content == texts[d] && d.Status() == states[d]
  }

  ghost predicate DirectivesSwitched(ds: set<SystemDirective>, seen: set<SystemDirective>,
                                     texts: map<SystemDirective, string>,
                                     states: map<SystemDirective, Status>, active: bool)
    reads ds
  {
    forall d :: d in ds ==> DirectiveSwitched(d, seen, texts, states, active)
  }

  /** A chapter keeps a consistent registry and the programs and
      directives it held at the start. */
  ghost predicate ChapterHeld(c: SofistikChapter, progs: map<SofistikChapter, map<string, SofistikProgram>>,
                              dirs: map<SofistikChapter, map<string, SystemDirective>>,
                              ds: set<SystemDirective>)
    reads c
  {
    c in progs && c in dirs && c.programs == progs[c] && c.directives == dirs[c] &&
    c.directives.Values <= ds && c.Registry()
  }

  ghost predicate ChaptersHeld(cs: seq<SofistikChapter>, progs: map<SofistikChapter, map<string, SofistikProgram>>,
                               dirs: map<SofistikChapter, map<string, SystemDirective>>,
                               ds: set<SystemDirective>)
    reads cs
  {
    forall c :: c in cs ==> ChapterHeld(c, progs, dirs, ds)
  }

  /** Every directive of the set is well formed. */
  ghost predicate DirectivesOk(ds: set<SystemDirective>)
    reads ds
  {
    forall d :: d in ds ==> d.Valid()
  }

  /** The programs and directives of the first `k` chapters are among
      those seen. */
  ghost predicate Covered(cs: seq<SofistikChapter>, k: nat,
                          progs: map<SofistikChapter, map<string, SofistikProgram>>,
                          dirs: map<SofistikChapter, map<string, SystemDirective>>,
                          seen: set<SofistikProgram>, seenD: set<SystemDirective>)
    requires k <= |cs|
  {
    forall j :: 0 <= j < k ==>
      cs[j] in progs && cs[j] in dirs && progs[cs[j]].Values <= seen && dirs[cs[j]].Values <= seenD
  }

  lemma CoveredStep(cs: seq<SofistikChapter>, k: nat,
                    progs: map<SofistikChapter, map<string, SofistikProgram>>,
                    dirs: map<SofistikChapter, map<string, SystemDirective>>,
                    seen: set<SofistikProgram>, seenD: set<SystemDirective>)
    requires k < |cs| && cs[k] in progs && cs[k] in dirs && Covered(cs, k, progs, dirs, seen, seenD)
    ensures Covered(cs, k + 1, progs, dirs, seen + progs[cs[k]].Values, seenD + dirs[cs[k]].Values)
  {
  }

  /** The first `k` chapters are switched. */
  ghost predicate PrefixActive(cs: seq<SofistikChapter>, k: nat, active: bool)
    requires k <= |cs|
    reads cs
  {
    forall j :: 0 <= j < k ==> cs[j].isActive == active
  }

  /** Once every chapter is covered, every program and directive held by
      one of them has been seen. */
  lemma CoveredAll(cs: seq<SofistikChapter>,
                   progs: map<SofistikChapter, map<string, SofistikProgram>>,
                   dirs: map<SofistikChapter, map<string, SystemDirective>>,
                   ps: set<SofistikProgram>, ds: set<SystemDirective>,
                   top: set<SofistikProgram>, topD: set<SystemDirective>,
                   seen: set<SofistikProgram>, seenD: set<SystemDirective>)
    requires Covered(cs, |cs|, progs, dirs, seen, seenD)
    requires forall p :: p in ps ==> p in top || exists c :: c in cs && c in progs && p in progs[c].Values
    requires forall d :: d in ds ==> d in topD || exists c :: c in cs && c in dirs && d in dirs[c].Values
    ensures ps <= seen + top && ds <= seenD + topD
  {
    forall p | p in ps && p !in top
      ensures p in seen
    {
      var c :| c in cs && c in progs && p in progs[c].Values;
      var j :| 0 <= j < |cs| && cs[j] == c;
    }
    forall d | d in ds && d !in topD
      ensures d in seenD
    {
      var c :| c in cs && c in dirs && d in dirs[c].Values;
      var j :| 0 <= j < |cs| && cs[j] == c;
    }
  }

  /** `turn_on` or `turn_off` of one chapter, stated against the original
      rows, texts and states: its programs and directives join the ones
      already switched.  A program switched before through another chapter
      is flagged again to the same rows, and a directive switched before
      is already in the target state. */
  method SwitchTracked(c: SofistikChapter, active: bool,
                       ghost seen: set<SofistikProgram>, ghost rows: map<SofistikProgram, seq<string>>,
                       ghost seenD: set<SystemDirective>, ghost texts: map<SystemDirective, string>,
                       ghost states: map<SystemDirective, Status>)
    returns (r: Outcome)
    requires c.Registry() && forall d :: d in c.directives.Values ==> d.Valid()
    requires forall p :: p in c.programs.Values ==> ProgramSwitched(p, seen, rows, active)
    requires forall d :: d in c.directives.Values ==> DirectiveSwitched(d, seenD, texts, states, active)
    modifies c, c.programs.Values, c.directives.Values
    ensures c.Registry() && c.isActive == active && forall d :: d in c.directives.Values ==> d.Valid()
    ensures c.programs == old(c.programs) && c.directives == old(c.directives)
    ensures r.Raised? ==>
      r.failure == IndexError &&
      exists p :: p in c.programs.Values && p in rows && !WithFlag(rows[p], Flag(active)).Ok?
    ensures r == Done ==> forall p :: p in c.programs.Values ==>
      ProgramSwitched(p, seen + c.programs.Values, rows, active)
    ensures r == Done ==> forall d :: d in c.directives.Values ==>
      DirectiveSwitched(d, seenD + c.directives.Values, texts, states, active)
  {
    r := SwitchChapter(c, active);
    if r.Raised? {
      ghost var p :| p in c.programs.Values && !WithFlag(old(p.content), Flag(active)).Ok?;
      if p in seen {
        WithFlagIdempotent(rows[p], Flag(active));
      }
      return;
    }
    forall p | p in c.programs.Values && p in seen
      ensures WithFlag(old(p.content), Flag(active)) == WithFlag(rows[p], Flag(active))
    {
      WithFlagIdempotent(rows[p], Flag(active));
    }
  }

  /** One turn of the chapter loop: chapter `k` is switched, and nothing
      outside it changes. */
  method SwitchStep(cs: seq<SofistikChapter>, k: nat, active: bool,
                    ghost ps: set<SofistikProgram>, ghost ds: set<SystemDirective>,
                    ghost seen: set<SofistikProgram>, ghost seenD: set<SystemDirective>,
                    ghost rows: map<SofistikProgram, seq<string>>,
                    ghost texts: map<SystemDirective, string>, ghost states: map<SystemDirective, Status>,
                    ghost progs: map<SofistikChapter, map<string, SofistikProgram>>,
                    ghost dirs: map<SofistikChapter, map<string, SystemDirective>>)
    returns (r: Outcome)
    requires k < |cs| && cs[k] in progs && cs[k] in dirs
    requires cs[k].programs.Values <= ps && cs[k].directives.Values <= ds
    requires ChaptersHeld(cs, progs, dirs, ds) && DirectivesOk(ds) && PrefixActive(cs, k, active)
    requires ProgramsSwitched(ps, seen, rows, active) && DirectivesSwitched(ds, seenD, texts, states, active)
    modifies cs[k], cs[k].programs.Values, cs[k].directives.Values
    ensures ChaptersHeld(cs, progs, dirs, ds) && DirectivesOk(ds)
    ensures r.Raised? ==> r.failure == IndexError && exists p :: p in ps && !WithFlag(rows[p], Flag(active)).Ok?
    ensures r == Done ==> PrefixActive(cs, k + 1, active)
    ensures r == Done ==> ProgramsSwitched(ps, seen + progs[cs[k]].Values, rows, active)
    ensures r == Done ==> DirectivesSwitched(ds, seenD + dirs[cs[k]].Values, texts, states, active)
  {
    var c := cs[k];
    assert c in cs;
    r := SwitchTracked(c, active, seen, rows, seenD, texts, states);
    forall x | x in cs && x != c
      ensures ChapterHeld(x, progs, dirs, ds)
    {
      assert unchanged(x);
    }
    forall d | d in ds && d !in c.directives.Values
      ensures d.Valid() && DirectiveSwitched(d, seenD + c.directives.Values, texts, states, active)
    {
      assert unchanged(d);
    }
    if r == Done {
      forall p | p in ps && p !in c.programs.Values
        ensures ProgramSwitched(p, seen + c.programs.Values, rows, active)
      {
        assert unchanged(p);
      }
      forall j | 0 <= j < k
        ensures cs[j].isActive == active
      {
        if cs[j] != c {
          assert cs[j] in cs;
        }
      }
    }
  }

  /** The loop over the chapters, stopping at the first that raises. */
  method SwitchLoop(cs: seq<SofistikChapter>, active: bool,
                    ghost ps: set<SofistikProgram>, ghost ds: set<SystemDirective>,
                    ghost rows: map<SofistikProgram, seq<string>>,
                    ghost texts: map<SystemDirective, string>, ghost states: map<SystemDirective, Status>,
                    ghost progs: map<SofistikChapter, map<string, SofistikProgram>>,
                    ghost dirs: map<SofistikChapter, map<string, SystemDirective>>)
    returns (r: Outcome, ghost seen: set<SofistikProgram>, ghost seenD: set<SystemDirective>)
    requires forall c :: c in cs ==> c in progs && c in dirs && progs[c].Values <= ps && dirs[c].Values <= ds
    requires ChaptersHeld(cs, progs, dirs, ds) && DirectivesOk(ds)
    requires ProgramsSwitched(ps, {}, rows, active) && DirectivesSwitched(ds, {}, texts, states, active)
    modifies cs, ps, ds
    ensures ChaptersHeld(cs, progs, dirs, ds) && DirectivesOk(ds)
    ensures r.Raised? ==> r.failure == IndexError && exists p :: p in ps && !WithFlag(rows[p], Flag(active)).Ok?
    ensures r == Done ==> PrefixActive(cs, |cs|, active) && Covered(cs, |cs|, progs, dirs, seen, seenD)
    ensures r == Done ==> ProgramsSwitched(ps, seen, rows, active)
    ensures r == Done ==> DirectivesSwitched(ds, seenD, texts, states, active)
  {
    seen, seenD := {}, {};
    var k := 0;
    while k < |cs|
      invariant 0 <= k <= |cs|
      invariant ChaptersHeld(cs, progs, dirs, ds) && DirectivesOk(ds) && PrefixActive(cs, k, active)
      invariant Covered(cs, k, progs, dirs, seen, seenD)
      invariant ProgramsSwitched(ps, seen, rows, active) && DirectivesSwitched(ds, seenD, texts, states, active)
    {
      assert cs[k] in cs && ChapterHeld(cs[k], progs, dirs, ds);
      r := SwitchStep(cs, k, active, ps, ds, seen, seenD, rows, texts, states, progs, dirs);
      if r.Raised? {
        return;
      }
      CoveredStep(cs, k, progs, dirs, seen, seenD);
      seen := seen + progs[cs[k]].Values;
      seenD := seenD + dirs[cs[k]].Values;
      k := k + 1;
    }
    r := Done;
  }

  /** The programs and directives each chapter holds now. */
  lemma Holdings(cs: seq<SofistikChapter>)
    returns (progs: map<SofistikChapter, map<string, SofistikProgram>>,
             dirs: map<SofistikChapter, map<string, SystemDirective>>)
    ensures forall c :: c in cs ==> c in progs && progs[c] == c.programs && c in dirs && dirs[c] == c.directives
  {
    progs := map c | c in Members(cs) :: c.programs;
    dirs := map c | c in Members(cs) :: c.directives;
  }

  /** At the start of the chapter loop every chapter is held as it is, and
      whatever one of them holds is found in `progs` and `dirs`. */
  lemma SwitchStart(cs: seq<SofistikChapter>, ps: set<SofistikProgram>, ds: set<SystemDirective>,
                    top: set<SofistikProgram>, topD: set<SystemDirective>,
                    progs: map<SofistikChapter, map<string, SofistikProgram>>,
                    dirs: map<SofistikChapter, map<string, SystemDirective>>)
    requires forall c :: c in cs ==> c.Valid() && c.programs.Values <= ps && c.directives.Values <= ds
    requires forall c :: c in cs ==> c in progs && progs[c] == c.programs && c in dirs && dirs[c] == c.directives
    requires forall p :: p in ps ==> p in top || exists c :: c in cs && p in c.programs.Values
    requires forall d :: d in ds ==> d in topD || exists c :: c in cs && d in c.directives.Values
    ensures forall c :: c in cs ==> c in progs && c in dirs && progs[c].Values <= ps && dirs[c].Values <= ds
    ensures ChaptersHeld(cs, progs, dirs, ds)
    ensures forall p :: p in ps ==> p in top || exists c :: c in cs && c in progs && p in progs[c].Values
    ensures forall d :: d in ds ==> d in topD || exists c :: c in cs && c in dirs && d in dirs[c].Values
  {
  }

  /** Chapters held with valid directives are valid. */
  lemma HeldEnd(cs: seq<SofistikChapter>,
                progs: map<SofistikChapter, map<string, SofistikProgram>>,
                dirs: map<SofistikChapter, map<string, SystemDirective>>, ds: set<SystemDirective>)
    requires ChaptersHeld(cs, progs, dirs, ds) && DirectivesOk(ds)
    ensures forall c :: c in cs ==>
      c in progs && c in dirs && c.Valid() && c.programs == progs[c] && c.directives == dirs[c]
  {
    forall c | c in cs
      ensures c in progs && c in dirs && c.Valid()
    {
      assert ChapterHeld(c, progs, dirs, ds);
    }
  }

  /** The chapter loop of `turn_on`/`turn_off`: each chapter in turn,
      stopping at the first that raises.  `ps` and `ds` hold the chapters'
      programs and directives and those of `top` and `topD`, with their
      original rows, texts and states in `rows`, `texts` and `states`; the
      ones switched are returned in `seen` and `seenD`. */
  method SwitchChapters(cs: seq<SofistikChapter>, active: bool,
                        ghost ps: set<SofistikProgram>, ghost ds: set<SystemDirective>,
                        ghost top: set<SofistikProgram>, ghost topD: set<SystemDirective>,
                        ghost rows: map<SofistikProgram, seq<string>>,
                        ghost texts: map<SystemDirective, string>, ghost states: map<SystemDirective, Status>)
    returns (r: Outcome, ghost seen: set<SofistikProgram>, ghost seenD: set<SystemDirective>)
    requires forall c :: c in cs ==> c.Valid() && c.programs.Values <= ps && c.directives.Values <= ds
    requires forall p :: p in ps ==> p in top || exists c :: c in cs && p in c.programs.Values
    requires forall d :: d in ds ==> d in topD || exists c :: c in cs && d in c.directives.Values
    requires DirectivesOk(ds)
    requires ProgramsSwitched(ps, {}, rows, active) && DirectivesSwitched(ds, {}, texts, states, active)
    modifies cs, ps, ds
    ensures forall c :: c in cs ==>
      c.Valid() && c.programs == old(c.programs) && c.directives == old(c.directives)
    ensures DirectivesOk(ds)
    ensures r.Raised? ==> r.failure == IndexError && exists p :: p in ps && !WithFlag(rows[p], Flag(active)).Ok?
    ensures r == Done ==> ps <= seen + top && ds <= seenD + topD
    ensures r == Done ==> forall c :: c in cs ==> c.isActive == active
    ensures r == Done ==> ProgramsSwitched(ps, seen, rows, active) && DirectivesSwitched(ds, seenD, texts, states, active)
  {
    ghost var progs, dirs := Holdings(cs);
    SwitchStart(cs, ps, ds, top, topD, progs, dirs);
    r, seen, seenD := SwitchLoop(cs, active, ps, ds, rows, texts, states, progs, dirs);
    HeldEnd(cs, progs, dirs, ds);
    if r == Done {
      CoveredAll(cs, progs, dirs, ps, ds, top, topD, seen, seenD);
      forall c | c in cs
        ensures c.isActive == active
      {
        var j :| 0 <= j < |cs| && cs[j] == c;
      }
    }
  }

  /** The program loop over the file's own programs, after the chapters:
      a program a chapter shares with the file is switched a second time,
      which leaves it as it was. */
  method SwitchFilePrograms(keys: seq<string>, programs: map<string, SofistikProgram>, active: bool,
                            ghost ps: set<SofistikProgram>, ghost seen: set<SofistikProgram>,
                            ghost rows: map<SofistikProgram, seq<string>>)
    returns (r: Outcome)
    requires forall k :: k in programs <==> k in keys
    requires programs.Values <= ps && ProgramsSwitched(ps, seen, rows, active)
    modifies programs.Values
    ensures r.Raised? ==> r.failure == IndexError && exists p :: p in ps && !WithFlag(rows[p], Flag(active)).Ok?
    ensures r == Done ==> ProgramsSwitched(ps, seen + programs.Values, rows, active)
  {
    r := SwitchAllPrograms(keys, programs, active);
    if r.Raised? {
      ghost var p :| p in programs.Values && !WithFlag(old(p.content), Flag(active)).Ok?;
      assert old(ProgramSwitched(p, seen, rows, active));
      if p in seen {
        WithFlagIdempotent(rows[p], Flag(active));
      }
      return;
    }
    forall p | p in ps
      ensures ProgramSwitched(p, seen + programs.Values, rows, active)
    {
      assert old(ProgramSwitched(p, seen, rows, active));
      if p in programs.Values && p in seen {
        WithFlagIdempotent(rows[p], Flag(active));
      }
    }
  }

  /** The directive loop over the file's own directives, after the
      chapters: a directive already switched is left as it is.  The
      chapters `chs` stay valid. */
  method SwitchFileDirectives(keys: seq<string>, directives: map<string, SystemDirective>, active: bool,
                              ghost ds: set<SystemDirective>, ghost seenD: set<SystemDirective>,
                              ghost texts: map<SystemDirective, string>, ghost states: map<SystemDirective, Status>,
                              ghost chs: seq<SofistikChapter>)
    requires forall k :: k in directives <==> k in keys
    requires directives.Values <= ds && DirectivesOk(ds) && DirectivesSwitched(ds, seenD, texts, states, active)
    requires forall c :: c in chs ==> c.Valid() && c.directives.Values <= ds
    modifies directives.Values
    ensures DirectivesOk(ds) && DirectivesSwitched(ds, seenD + directives.Values, texts, states, active)
    ensures forall c :: c in chs ==> c.Valid()
  {
    SwitchAllDirectives(keys, directives, active);
    forall d | d in ds
      ensures d.Valid() && DirectiveSwitched(d, seenD + directives.Values, texts, states, active)
    {
      assert old(d.Valid() && DirectiveSwitched(d, seenD, texts, states, active));
    }
    forall c | c in chs
      ensures c.Valid()
    {
      assert c.Registry() by { assert old(c.Registry()); }
    }
  }

  /** The program loop and then the directive loop over the file's own
      programs and directives, after the chapters, which stay as they are. */
  method SwitchFile(programKeys: seq<string>, programs: map<string, SofistikProgram>,
                    directiveKeys: seq<string>, directives: map<string, SystemDirective>, active: bool,
                    ghost ps: set<SofistikProgram>, ghost ds: set<SystemDirective>,
                    ghost seen: set<SofistikProgram>, ghost seenD: set<SystemDirective>,
                    ghost rows: map<SofistikProgram, seq<string>>,
                    ghost texts: map<SystemDirective, string>, ghost states: map<SystemDirective, Status>,
                    ghost chs: seq<SofistikChapter>)
    returns (r: Outcome)
    requires forall k :: k in programs <==> k in programKeys
    requires forall k :: k in directives <==> k in directiveKeys
    requires programs.Values <= ps && directives.Values <= ds && DirectivesOk(ds)
    requires ProgramsSwitched(ps, seen, rows, active) && DirectivesSwitched(ds, seenD, texts, states, active)
    requires forall c :: c in chs ==> c.Valid() && c.directives.Values <= ds
    modifies programs.Values, directives.Values
    ensures DirectivesOk(ds) && forall c :: c in chs ==> c.Valid() && unchanged(c)
    ensures r.Raised? ==> r.failure == IndexError && exists p :: p in ps && !WithFlag(rows[p], Flag(active)).Ok?
    ensures r == Done ==> ProgramsSwitched(ps, seen + programs.Values, rows, active)
    ensures r == Done ==> DirectivesSwitched(ds, seenD + directives.Values, texts, states, active)
  {
    r := SwitchFilePrograms(programKeys, programs, active, ps, seen, rows);
    if r.Raised? {
      return;
    }
    SwitchFileDirectives(directiveKeys, directives, active, ds, seenD, texts, states, chs);
  }

  /** Once every program and directive is seen, each is switched. */
  lemma DoneEnd(ps: set<SofistikProgram>, ds: set<SystemDirective>,
                seen: set<SofistikProgram>, seenD: set<SystemDirective>,
                rows: map<SofistikProgram, seq<string>>,
                texts: map<SystemDirective, string>, states: map<SystemDirective, Status>, active: bool)
    requires ps <= seen && ds <= seenD
    requires ProgramsSwitched(ps, seen, rows, active) && DirectivesSwitched(ds, seenD, texts, states, active)
    ensures forall p :: p in ps ==>
      p in rows && WithFlag(rows[p], Flag(active)).Ok? &&
      p.content == WithFlag(rows[p], Flag(active)).value && p.isActive == active
    ensures forall d :: d in ds ==>
      d in texts && d in states &&
      d.Status() == Target(active) && d.content == Switched(texts[d], states[d], Target(active))
  {
    forall p | p in ps
      ensures p in rows && WithFlag(rows[p], Flag(active)).Ok? &&
        p.content == WithFlag(rows[p], Flag(active)).value && p.isActive == active
    {
      assert ProgramSwitched(p, seen, rows, active);
    }
    forall d | d in ds
      ensures d in texts && d in states &&
        d.Status() == Target(active) && d.content == Switched(texts[d], states[d], Target(active))
    {
      assert DirectiveSwitched(d, seenD, texts, states, active);
    }
  }

  /** `SwitchAll`, stated against the programs and directives seen. */
  method SwitchTrackedAll(cs: seq<SofistikChapter>,
                          programKeys: seq<string>, programs: map<string, SofistikProgram>,
                          directiveKeys: seq<string>, directives: map<string, SystemDirective>, active: bool,
                          ghost ps: set<SofistikProgram>, ghost ds: set<SystemDirective>,
                          ghost rows: map<SofistikProgram, seq<string>>,
                          ghost texts: map<SystemDirective, string>, ghost states: map<SystemDirective, Status>)
    returns (r: Outcome, ghost seen: set<SofistikProgram>, ghost seenD: set<SystemDirective>)
    requires forall k :: k in programs <==> k in programKeys
    requires forall k :: k in directives <==> k in directiveKeys
    requires forall c :: c in cs ==> c.Valid() && c.programs.Values <= ps && c.directives.Values <= ds
    requires programs.Values <= ps && directives.Values <= ds
    requires forall p :: p in ps ==> p in programs.Values || exists c :: c in cs && p in c.programs.Values
    requires forall d :: d in ds ==> d in directives.Values || exists c :: c in cs && d in c.directives.Values
    requires DirectivesOk(ds)
    requires ProgramsSwitched(ps, {}, rows, active) && DirectivesSwitched(ds, {}, texts, states, active)
    modifies cs, ps, ds
    ensures forall c :: c in cs ==> c.Valid() && c.programs == old(c.programs) && c.directives == old(c.directives)
    ensures DirectivesOk(ds)
    ensures r.Raised? ==> r.failure == IndexError && exists p :: p in ps && !WithFlag(rows[p], Flag(active)).Ok?
    ensures r == Done ==> forall c :: c in cs ==> c.isActive == active
    ensures r == Done ==> ps <= seen && ds <= seenD
    ensures r == Done ==> ProgramsSwitched(ps, seen, rows, active) && DirectivesSwitched(ds, seenD, texts, states, active)
  {
    r, seen, seenD := SwitchChapters(cs, active, ps, ds, programs.Values, directives.Values, rows, texts, states);
    if r.Raised? {
      return;
    }
    r := SwitchFile(programKeys, programs, directiveKeys, directives, active, ps, ds, seen, seenD,
                           rows, texts, states, cs);
    seen, seenD := seen + programs.Values, seenD + directives.Values;
  }

  /** `turn_on` (`active`) or `turn_off` over chapters `cs` and the file's
      own `programs` and `directives`: every chapter, then every program,
      then every directive, each in key order, stopping at the first
      program that raises.  `ps` and `ds` are everything reachable, with
      their original rows, texts and states. */
  method SwitchAll(cs: seq<SofistikChapter>,
                   programKeys: seq<string>, programs: map<string, SofistikProgram>,
                   directiveKeys: seq<string>, directives: map<string, SystemDirective>, active: bool,
                   ghost ps: set<SofistikProgram>, ghost ds: set<SystemDirective>,
                   ghost rows: map<SofistikProgram, seq<string>>,
                   ghost texts: map<SystemDirective, string>, ghost states: map<SystemDirective, Status>)
    returns (r: Outcome)
    requires forall k :: k in programs <==> k in programKeys
    requires forall k :: k in directives <==> k in directiveKeys
    requires forall c :: c in cs ==> c.Valid() && c.programs.Values <= ps && c.directives.Values <= ds
    requires programs.Values <= ps && directives.Values <= ds
    requires forall p :: p in ps ==> p in programs.Values || exists c :: c in cs && p in c.programs.Values
    requires forall d :: d in ds ==> d in directives.Values || exists c :: c in cs && d in c.directives.Values
    requires DirectivesOk(ds)
    requires ProgramsSwitched(ps, {}, rows, active) && DirectivesSwitched(ds, {}, texts, states, active)
    modifies Members(cs), ps, ds
    ensures forall c :: c in cs ==> c.Valid() && c.programs == old(c.programs) && c.directives == old(c.directives)
    ensures DirectivesOk(ds)
    ensures r == Done <==> forall p :: p in ps ==> WithFlag(rows[p], Flag(active)).Ok?
    ensures r.Raised? ==> r.failure == IndexError
    ensures r == Done ==> forall c :: c in cs ==> c.isActive == active
    ensures r == Done ==> forall p :: p in ps ==>
      p.content == WithFlag(rows[p], Flag(active)).value && p.isActive == active
    ensures r == Done ==> forall d :: d in ds ==>
      d.Status() == Target(active) && d.content == Switched(texts[d], states[d], Target(active))
  {
    ghost var seen, seenD;
    r, seen, seenD := SwitchTrackedAll(cs, programKeys, programs, directiveKeys, directives, active,
                                       ps, ds, rows, texts, states);
    if r == Done {
      DoneEnd(ps, ds, seen, seenD, rows, texts, states, active);
    }
  }

  /** What the chapters `cs` hold, together with what the file holds. */
  lemma HeldIn(cs: seq<SofistikChapter>, chs: set<SofistikChapter>, top: set<SofistikProgram>, topD: set<SystemDirective>)
    requires forall c :: c in cs <==> c in chs
    ensures forall c :: c in cs ==>
      c.programs.Values <= top + ProgramsIn(chs) && c.directives.Values <= topD + DirectivesIn(chs)
    ensures forall p :: p in top + ProgramsIn(chs) ==>
      p in top || exists c :: c in cs && p in c.programs.Values
    ensures forall d :: d in topD + DirectivesIn(chs) ==>
      d in topD || exists c :: c in cs && d in c.directives.Values
  {
  }

  /** The rows of `ps` and the texts and states of `ds` as they are now,
      none of them switched yet. */
  lemma Snapshot(ps: set<SofistikProgram>, ds: set<SystemDirective>, active: bool)
    returns (rows: map<SofistikProgram, seq<string>>, texts: map<SystemDirective, string>,
             states: map<SystemDirective, Status>)
    ensures ProgramsSwitched(ps, {}, rows, active) && DirectivesSwitched(ds, {}, texts, states, active)
  {
    rows := map p | p in ps :: p.content;
    texts := map d | d in ds :: d.content;
    states := map d | d in ds :: d.Status();
  }

  /** A dictionary after `update`s with the given keys: it holds the keys
      it held before and those, and every other key keeps its value. */
  ghost predicate Grown<V>(before: map<string, V>, after: map<string, V>, keys: set<string>)
  {
    after.Keys == before.Keys + keys &&
    forall n :: n in before && n !in keys ==> after[n] == before[n]
  }

  /** Keys a dictionary already holds grow it by nothing. */
  lemma GrownSelf<V>(m: map<string, V>, keys: set<string>)
    requires forall n :: n in keys ==> n in m
    ensures Grown(m, m, keys)
  {
  }

  /** An `update` under one more key, after keys it already holds. */
  lemma GrownByPut<V>(m: map<string, V>, keys: set<string>, k: string, v: V)
    requires forall n :: n in keys ==> n in m
    ensures Grown(m, m[k := v], keys + {k})
  {
  }

  /** Growing twice, by keys that include the first ones, is growing once. */
  lemma GrownTrans<V>(m0: map<string, V>, m1: map<string, V>, m2: map<string, V>, k1: set<string>, k2: set<string>)
    requires Grown(m0, m1, k1) && Grown(m1, m2, k2) && k1 <= k2
    ensures Grown(m0, m2, k2)
  {
  }

  /** The three dictionaries of a manipulator. */
  datatype Entries = Entries(programs: map<string, SofistikProgram>, directives: map<string, SystemDirective>,
                             chapters: map<string, SofistikChapter>)

  /** From `before` to `after`, each dictionary grew by exactly the names
      the shape `st` records for it: top-level programs, top-level
      directives and chapters. */
  ghost predicate Extended(before: Entries, after: Entries, st: Shape)
  {
    Grown(before.programs, after.programs, st.rows.Keys) &&
    Grown(before.directives, after.directives, st.texts) &&
    Grown(before.chapters, after.chapters, Chapters(st).Keys)
  }

  /** The dictionaries hold every name the shape `st` records. */
  ghost predicate Covers(e: Entries, st: Shape)
  {
    (forall n :: n in st.rows ==> n in e.programs) &&
    (forall t :: t in st.texts ==> t in e.directives) &&
    (forall n :: n in Chapters(st) ==> n in e.chapters)
  }

  /** Dictionaries that already hold every name of `st` are extended by it
      from themselves. */
  lemma ExtendedSelf(e: Entries, st: Shape)
    requires Covers(e, st)
    ensures Extended(e, e, st)
  {
    GrownSelf(e.programs, st.rows.Keys);
    GrownSelf(e.directives, st.texts);
    GrownSelf(e.chapters, Chapters(st).Keys);
  }

  /** Opening a chapter adds it under its name. */
  lemma OpenedExtended(e: Entries, st: Shape, name: string, active: bool, c: SofistikChapter)
    requires Covers(e, st)
    ensures Extended(e, e.(chapters := e.chapters[name := c]), Opened(st, name, active))
  {
    GrownSelf(e.programs, st.rows.Keys);
    GrownSelf(e.directives, st.texts);
    GrownByPut(e.chapters, Chapters(st).Keys, name, c);
  }

  /** Listing a program at the top level adds it under its name. */
  lemma ListedProgramExtended(e: Entries, st: Shape, name: string, p: SofistikProgram, content: seq<string>)
    requires Covers(e, st)
    ensures Extended(e, e.(programs := e.programs[name := p]),
                     st.(top := st.top + [name], rows := st.rows[name := content]))
  {
    GrownByPut(e.programs, st.rows.Keys, name, p);
    GrownSelf(e.directives, st.texts);
    GrownSelf(e.chapters, Chapters(st).Keys);
  }

  /** Listing a directive at the top level adds it under its text. */
  lemma ListedDirectiveExtended(e: Entries, st: Shape, key: string, d: SystemDirective)
    requires Covers(e, st)
    ensures Extended(e, e.(directives := e.directives[key := d]),
                     st.(top := st.top + [key], texts := st.texts + {key}))
  {
    GrownSelf(e.programs, st.rows.Keys);
    GrownByPut(e.directives, st.texts, key, d);
    GrownSelf(e.chapters, Chapters(st).Keys);
  }

  /** Joining the open chapter adds nothing to the dictionaries. */
  lemma JoinedExtended(e: Entries, st: Shape, name: string, content: seq<string>, key: string)
    requires Covers(e, st) && st.open.Some?
    ensures ProgramPlaced(st, name, content).Ok? ==> Extended(e, e, ProgramPlaced(st, name, content).value)
    ensures DirectivePlaced(st, key).Ok? ==> Extended(e, e, DirectivePlaced(st, key).value)
  {
    ExtendedSelf(e, st);
  }

  /** A shape records at least the names an earlier one records. */
  ghost predicate Within(st0: Shape, st: Shape)
  {
    st0.rows.Keys <= st.rows.Keys && st0.texts <= st.texts && Chapters(st0).Keys <= Chapters(st).Keys
  }

  lemma ExtendedTrans(e0: Entries, e1: Entries, e2: Entries, st1: Shape, st2: Shape)
    requires Extended(e0, e1, st1) && Extended(e1, e2, st2) && Within(st1, st2)
    ensures Extended(e0, e2, st2)
  {
    GrownTrans(e0.programs, e1.programs, e2.programs, st1.rows.Keys, st2.rows.Keys);
    GrownTrans(e0.directives, e1.directives, e2.directives, st1.texts, st2.texts);
    GrownTrans(e0.chapters, e1.chapters, e2.chapters, Chapters(st1).Keys, Chapters(st2).Keys);
  }

  /** The chapters of a shape do not depend on its top-level records. */
  lemma ChaptersIgnoreTop(st: Shape, top: seq<string>, rows: map<string, seq<string>>, texts: set<string>)
    ensures Chapters(st.(top := top, rows := rows, texts := texts)) == Chapters(st)
  {
  }

  /** Placing a program or a directive only adds names to the shape. */
  lemma PlacedWithin(st: Shape, name: string, content: seq<string>, key: string)
    ensures ProgramPlaced(st, name, content).Ok? ==> Within(st, ProgramPlaced(st, name, content).value)
    ensures DirectivePlaced(st, key).Ok? ==> Within(st, DirectivePlaced(st, key).value)
  {
  }

  /** A program step only adds names to the shape. */
  lemma ProgramStepWithin(temp: seq<string>, st: Shape, item: Span)
    ensures ProgramStep(temp, st, item).Ok? ==> Within(st, ProgramStep(temp, st, item).value)
  {
    ProgramStepSplits(temp, st, item);
    if ProgramBuilt(temp, item).Ok? {
      PlacedWithin(st, ProgramBuilt(temp, item).value, ProgramRows(temp, item.0, item.1).value, "");
    }
  }

  /** A directive step only adds names to the shape. */
  lemma DirectiveStepWithin(temp: seq<string>, st: Shape, item: Span)
    ensures DirectiveStep(temp, st, item).Ok? ==> Within(st, DirectiveStep(temp, st, item).value)
  {
    DirectiveStepSplits(temp, st, item);
    if DirectiveBuilt(temp, item).Ok? {
      PlacedWithin(st, "", [], DirectiveBuilt(temp, item).value);
    }
  }

  /** The program and directive parts of an item only add names to the
      shape. */
  lemma ContentStepWithin(temp: seq<string>, found: Found, st: Shape, item: Span)
    ensures ContentStep(temp, found, st, item).Ok? ==> Within(st, ContentStep(temp, found, st, item).value)
  {
    var st1 := st;
    if item in found.programs {
      ProgramStepWithin(temp, st, item);
      if ProgramStep(temp, st, item).Ok? {
        st1 := ProgramStep(temp, st, item).value;
      }
    }
    if found.directives.Some? && item in found.directives.value {
      DirectiveStepWithin(temp, st1, item);
    }
  }

  /** Every step of a build only adds names to the shape. */
  lemma StepsWithin(temp: seq<string>, found: Found, st: Shape, item: Span)
    ensures ItemStep(temp, found, st, item).Ok? ==> Within(st, ItemStep(temp, found, st, item).value)
  {
    if found.chapters.Some? && item in found.chapters.value && ChapterStep(temp, st, item).Ok? {
      ContentStepWithin(temp, found, ChapterStep(temp, st, item).value, item);
    } else {
      ContentStepWithin(temp, found, st, item);
    }
  }

  /** Appending one name after a listing is appending it to the listing's
      tail. */
  lemma AppendAssoc(base: seq<string>, top: seq<string>, key: string)
    ensures (base + top) + [key] == base + (top + [key])
  {
  }

  /** `[line.rstrip() for line in lines]`. */
  function StrippedLines(lines: seq<string>): (r: seq<string>)
    ensures |r| == |lines| && forall i :: 0 <= i < |lines| ==> r[i] == RStrip(lines[i])
  {
    seq(|lines|, i requires 0 <= i < |lines| => RStrip(lines[i]))
  }

  lemma StrippedLinesAppend(lines: seq<string>, line: string)
    ensures StrippedLines(lines + [line]) == StrippedLines(lines) + [RStrip(line)]
  {
  }

  /** The program `_build_structure` builds from a program span of
      upper-case lines: named by the line after the PROG line, holding the
      span's rows. */
  method NewProgram(temp: seq<string>, item: Span) returns (r: Result<SofistikProgram>)
    requires UpperAt(temp, item.0 + 1)
    ensures r.Ok? <==> ProgramBuilt(temp, item).Ok?
    ensures r.Err? ==> r.failure == ProgramBuilt(temp, item).failure
    ensures r.Ok? ==> fresh(r.value) && r.value.name == ProgramBuilt(temp, item).value
    ensures r.Ok? ==> r.value.content == ProgramRows(temp, item.0, item.1).value
    ensures r.Ok? ==> Upper(r.value.name) == r.value.name
  {
    if |temp| <= item.0 + 1 {
      return Err(IndexError);
    }
    var name := SliceFrom(LStrip(temp[item.0 + 1]), 5);
    assert ProgramName(temp, item.0) == Ok(name);
    ProgramNameUpper(temp, item.0);
    match ProgramRows(temp, item.0, item.1)
    case Err(e) =>
      r := Err(e);
    case Ok(rows) =>
      ghost var detected := Detected(rows, false, "ASE");
      assert ProgramBuilt(temp, item) == if detected.Ok? then Ok(name) else Err(detected.failure);
      r := SofistikProgram.Create(rows, name, false, "ASE");
  }

  /** The directive `_build_structure` parses from a directive span. */
  method NewDirective(temp: seq<string>, item: Span) returns (r: Result<SystemDirective>)
    ensures r.Ok? <==> DirectiveBuilt(temp, item).Ok?
    ensures r.Err? ==> r.failure == DirectiveBuilt(temp, item).failure
    ensures r.Ok? ==> fresh(r.value) && r.value.Valid() && r.value.content == DirectiveBuilt(temp, item).value
    ensures r.Ok? ==> Upper(r.value.content) == r.value.content
  {
    if |temp| <= item.0 {
      return Err(IndexError);
    }
    DirectiveKeyUpper(temp[item.0]);
    r := SystemDirective.FromString(temp[item.0]);
  }

  class DatManipulator {
    var fullName: string
    var originalContent: seq<string>
    var chapters: map<string, SofistikChapter>
    var directives: map<string, SystemDirective>
    var order: seq<string>
    var programs: map<string, SofistikProgram>
    /** The insertion order of the three dictionaries, which `turn_on` and
        `turn_off` follow. */
    var chapterKeys: seq<string>
    var directiveKeys: seq<string>
    var programKeys: seq<string>

    /** The three key orders are consistent with the order list, and each
        lists exactly its dictionary's keys. */
    ghost predicate Registry()
      reads this`order, this`chapterKeys, this`programKeys, this`directiveKeys,
            this`chapters, this`programs, this`directives
    {
      Registered(order, chapterKeys, programKeys, directiveKeys) &&
      (forall k :: k in chapters <==> k in chapterKeys) &&
      (forall k :: k in programs <==> k in programKeys) &&
      (forall k :: k in directives <==> k in directiveKeys)
    }

    /** Every chapter is well formed. */
    ghost predicate ChaptersValid()
      reads this`chapters, chapters.Values, DirectivesIn(chapters.Values)
    {
      forall c :: c in chapters.Values ==> c.Valid()
    }

    /** Every directive is well formed. */
    ghost predicate DirectivesValid()
      reads this`directives, directives.Values
    {
      forall d :: d in directives.Values ==> d.Valid()
    }

    /** The registry is consistent and every directive is well formed.
        The chapters' own consistency is `ChaptersValid`: a chapter is an
        object of its own, which callers edit through `get_chapter`. */
    ghost predicate Valid()
      reads this, directives.Values
    {
      Registry() && DirectivesValid()
    }

    /** `SOFiSTiKDATManipulator(file_name, path_to_folder)`. */
    constructor (fileName: string, pathToFolder: string)
      ensures Valid() && fullName == pathToFolder + fileName + ".dat"
      ensures originalContent == [] && order == []
      ensures chapters == map[] && programs == map[] && directives == map[]
    {
      fullName := pathToFolder + fileName + ".dat";
      originalContent := [];
      chapters := map[];
      directives := map[];
      order := [];
      programs := map[];
      chapterKeys := [];
      directiveKeys := [];
      programKeys := [];
    }

    /** `has_chapter`: case-insensitive. */
    predicate HasChapter(chapterName: string)
      reads this
    {
      Upper(chapterName) in chapters
    }

    /** `has_directive`: case-insensitive. */
    predicate HasDirective(directiveName: string)
      reads this
    {
      Upper(directiveName) in directives
    }

    /** `has_program`: case-insensitive. */
    predicate HasProgram(programName: string)
      reads this
    {
      Upper(programName) in programs
    }

    /** `get_chapter`. */
    function GetChapter(chapterName: string): (r: Result<SofistikChapter>)
      reads this
      ensures r.Ok? <==> HasChapter(chapterName)
      ensures r.Ok? ==> r.value == chapters[Upper(chapterName)]
      ensures r.Err? ==> r.failure == RuntimeError
    {
      if HasChapter(chapterName) then Ok(chapters[Upper(chapterName)]) else Err(RuntimeError)
    }

    /** `get_directive`. */
    function GetDirective(directiveName: string): (r: Result<SystemDirective>)
      reads this
      ensures r.Ok? <==> HasDirective(directiveName)
      ensures r.Ok? ==> r.value == directives[Upper(directiveName)]
      ensures r.Err? ==> r.failure == RuntimeError
    {
      if HasDirective(directiveName) then Ok(directives[Upper(directiveName)]) else Err(RuntimeError)
    }

    /** `get_program`. */
    function GetProgram(programName: string): (r: Result<SofistikProgram>)
      reads this
      ensures r.Ok? <==> HasProgram(programName)
      ensures r.Ok? ==> r.value == programs[Upper(programName)]
      ensures r.Err? ==> r.failure == RuntimeError
    {
      if HasProgram(programName) then Ok(programs[Upper(programName)]) else Err(RuntimeError)
    }

    /** `get_program_index`: the first position of the upper-cased name in
        the order list; an unknown program raises. */
    function GetProgramIndex(programName: string): (r: Result<nat>)
      reads this
      ensures !HasProgram(programName) ==> r == Err(RuntimeError)
      ensures Registry() ==> (r.Ok? <==> HasProgram(programName))
      ensures r.Ok? ==> r.value < |order| && order[r.value] == Upper(programName) &&
                        Upper(programName) !in order[..r.value]
    {
      if HasProgram(programName) then IndexOf(order, Upper(programName)) else Err(RuntimeError)
    }

    /** `add_chapter`: a new, active, empty chapter under the upper-cased
        name, appended at the end; an existing name raises. */
    method AddChapter(chapterName: string) returns (r: Outcome)
      requires Valid()
      modifies this
      ensures Valid()
      ensures r == Done <==> Upper(chapterName) !in old(chapters)
      ensures r.Raised? ==> r.failure == RuntimeError && unchanged(this)
      ensures r == Done ==> (Upper(chapterName) in chapters &&
        var c := chapters[Upper(chapterName)];
        fresh(c) && c.Valid() && c.name == Upper(chapterName) && c.isActive && c.order == [] &&
        chapters == old(chapters)[Upper(chapterName) := c] && order == old(order) + [Upper(chapterName)])
      ensures programs == old(programs) && directives == old(directives)
    {
      var key := Upper(chapterName);
      if HasChapter(key) {
        UpperIdempotent(chapterName);
        return Raised(RuntimeError);
      }
      UpperIdempotent(chapterName);
      TouchKeepsRegistered(order, chapterKeys, programKeys, directiveKeys, key);
      var c := new SofistikChapter(key, true);
      chapterKeys := Touch(chapterKeys, key);
      order := order + [key];
      chapters := chapters[key := c];
      assert Registry();
      r := Done;
    }

    /** `add_directive`: appended at the end under its text; a directive
        with that text already raises. */
    method AddDirective(d: SystemDirective) returns (r: Outcome)
      requires Valid() && d.Valid()
      modifies this
      ensures Valid()
      ensures r == Done <==> d.content !in old(directives)
      ensures r.Raised? ==> r.failure == RuntimeError && unchanged(this)
      ensures r == Done ==> directives == old(directives)[d.content := d] && order == old(order) + [d.content]
      ensures programs == old(programs) && chapters == old(chapters)
    {
      if HasDirective(d.content) {
        return Raised(RuntimeError);
      }
      TouchKeepsRegistered(order, chapterKeys, programKeys, directiveKeys, d.content);
      AddedDirectiveValid(directives, d.content, d);
      directives := directives[d.content := d];
      directiveKeys := Touch(directiveKeys, d.content);
      order := order + [d.content];
      assert Registry();
      r := Done;
    }

    /** `add_program`: appended at the end under its name; a program of
        that name already raises. */
    method AddProgram(p: SofistikProgram) returns (r: Outcome)
      requires Valid() && Upper(p.name) == p.name
      modifies this
      ensures Valid()
      ensures r == Done <==> p.name !in old(programs)
      ensures r.Raised? ==> r.failure == RuntimeError && unchanged(this)
      ensures r == Done ==> programs == old(programs)[p.name := p] && order == old(order) + [p.name]
      ensures directives == old(directives) && chapters == old(chapters)
    {
      if HasProgram(p.name) {
        return Raised(RuntimeError);
      }
      TouchKeepsRegistered(order, chapterKeys, programKeys, directiveKeys, p.name);
      programs := programs[p.name := p];
      programKeys := Touch(programKeys, p.name);
      order := order + [p.name];
      assert Registry();
      r := Done;
    }

    /** `create_new_program`: an empty program of the given type and
        activity, added under the upper-cased name.  An unknown type raises
        before anything is added. */
    method CreateNewProgram(name: string, progType: string, isActive: bool) returns (r: Outcome)
      requires Valid()
      modifies this
      ensures Valid()
      ensures r == Done <==> Upper(progType) in Types && Upper(name) !in old(programs)
      ensures r.Raised? ==> r.failure == RuntimeError && unchanged(this)
      ensures r == Done ==> (Upper(name) in programs &&
        var p := programs[Upper(name)];
        fresh(p) && programs == old(programs)[Upper(name) := p] && order == old(order) + [Upper(name)] &&
        p.content == [ProgRow(isActive, Upper(progType)), "\tHEAD " + Upper(name), "END"] &&
        p.isActive == isActive && p.progType == Upper(progType))
      ensures directives == old(directives) && chapters == old(chapters)
    {
      var created := SofistikProgram.CreateEmpty(name, progType, isActive);
      if created.Err? {
        return Raised(created.failure);
      }
      UpperIdempotent(name);
      r := AddProgram(created.value);
    }

    /** The programs of the file and of its chapters. */
    ghost function AllPrograms(): set<SofistikProgram>
      reads this, chapters.Values
    {
      programs.Values + ProgramsIn(chapters.Values)
    }

    /** The directives of the file and of its chapters. */
    ghost function AllDirectives(): set<SystemDirective>
      reads this, chapters.Values
    {
      directives.Values + DirectivesIn(chapters.Values)
    }

    /** `turn_on` (`active`) or `turn_off`: every chapter in key order,
        then every program of the file, then every directive of the file.
        The first program whose rows cannot be flagged raises and stops the
        rest; a program or directive reached twice, through a chapter and
        through the file, changes nothing the second time. */
    method Switch(active: bool) returns (r: Outcome)
      requires Valid() && ChaptersValid()
      modifies chapters.Values, AllPrograms(), AllDirectives()
      ensures Valid() && ChaptersValid()
      ensures r == Done <==> forall p :: p in old(AllPrograms()) ==> WithFlag(old(p.content), Flag(active)).Ok?
      ensures r.Raised? ==> r.failure == IndexError
      ensures r == Done ==> forall c :: c in chapters.Values ==> c.isActive == active
      ensures r == Done ==> forall p :: p in old(AllPrograms()) ==>
        p.content == WithFlag(old(p.content), Flag(active)).value && p.isActive == active
      ensures r == Done ==> forall d :: d in old(AllDirectives()) ==>
        d.Status() == Target(active) && d.content == Switched(old(d.content), old(d.Status()), Target(active))
    {
      var cs := InOrder(chapterKeys, chapters);
      InOrderValues(chapterKeys, chapters);
      assert Members(cs) == chapters.Values;
      ghost var ps := AllPrograms();
      ghost var ds := AllDirectives();
      ghost var rows, texts, states := Snapshot(ps, ds, active);
      HeldIn(cs, chapters.Values, programs.Values, directives.Values);
      r := SwitchAll(cs, programKeys, programs, directiveKeys, directives, active, ps, ds, rows, texts, states);
    }

    /** The registries hold what the shape `st` records: each top-level
        program under its name with its rows, each top-level directive under
        its text, and each chapter under its name. */
    ghost predicate Holds(st: Shape)
      reads this`programs, this`directives, this`chapters, programs.Values, directives.Values, chapters.Values,
            ProgramsIn(chapters.Values), DirectivesIn(chapters.Values)
    {
      HoldsTop(st.rows, st.texts) && HoldsChapters(Chapters(st))
    }

    /** Each recorded top-level program is registered under its name with
        its rows, and each recorded top-level directive under its text. */
    ghost predicate HoldsTop(rows: map<string, seq<string>>, texts: set<string>)
      reads this`programs, this`directives, programs.Values, directives.Values
    {
      (forall n :: n in rows ==> n in programs && programs[n].content == rows[n]) &&
      (forall t :: t in texts ==> t in directives && directives[t].content == t)
    }

    /** Each recorded chapter is registered under its name and holds what
        is recorded for it. */
    ghost predicate HoldsChapters(images: map<string, ChapterImage>)
      reads this`chapters, chapters.Values, ProgramsIn(chapters.Values), DirectivesIn(chapters.Values)
    {
      forall n :: n in images ==> n in chapters && Pictures(chapters[n], images[n])
    }

    /** While the registries and what they hold stay as they were, the
        top-level records keep holding. */
    twostate lemma HoldsTopKept(st: Shape)
      requires old(HoldsTop(st.rows, st.texts)) && programs == old(programs) && directives == old(directives)
      requires unchanged(programs.Values, directives.Values)
      ensures HoldsTop(st.rows, st.texts)
    {
    }

    /** While the chapters and what they hold stay as they were, the chapter
        records keep holding. */
    twostate lemma HoldsChaptersKept(images: map<string, ChapterImage>)
      requires old(HoldsChapters(images)) && chapters == old(chapters)
      requires unchanged(chapters.Values, old(ProgramsIn(chapters.Values)), old(DirectivesIn(chapters.Values)))
      ensures HoldsChapters(images)
    {
    }

    /** When only the open chapter of `st` changed, and it now pictures
        `img`, the chapter records hold `st` with `img` as its open chapter. */
    twostate lemma HoldsChaptersReopened(step: (Shape, ChapterImage))
      requires var (st, img) := step; st.open.Some? && img.name == st.open.value.name && img.name in chapters
      requires var (st, img) := step; old(HoldsChapters(Chapters(st))) && chapters == old(chapters)
      requires var (st, img) := step; Pictures(chapters[img.name], img)
      requires var (st, img) := step; forall n :: n in st.closed && n != img.name && n in chapters ==> chapters[n] != chapters[img.name]
      requires var (st, img) := step; forall x :: x in old(chapters.Values) && x != chapters[img.name] ==>
        unchanged(x) && unchanged(x.programs.Values, x.directives.Values)
      ensures var (st, img) := step; HoldsChapters(Chapters(st.(open := Some(img))))
    {
      var (st, img) := step;
      forall n | n in Chapters(st.(open := Some(img)))
        ensures n in chapters && Pictures(chapters[n], Chapters(st.(open := Some(img)))[n])
      {
        if n != img.name {
          assert chapters[n] in old(chapters.Values);
          PicturesKept((chapters[n], Chapters(st)[n]));
        }
      }
    }

    /** Once a new chapter picturing an empty record is registered under
        its name, and the chapters registered before are as they were, the
        chapter records hold the shape with that chapter opened, and no
        other name leads to the new chapter. */
    twostate lemma HoldsChaptersOpened(new step: (Shape, SofistikChapter))
      requires var (st, c) := step; old(HoldsChapters(Chapters(st))) && chapters == old(chapters)[c.name := c]
      requires var (st, c) := step; Pictures(c, ChapterImage(c.name, c.isActive, map[], {}))
      requires forall x :: x in old(chapters.Values) ==> unchanged(x) && unchanged(x.programs.Values, x.directives.Values)
      requires var (st, c) := step; c !in old(chapters.Values)
      ensures var (st, c) := step; HoldsChapters(Chapters(Opened(st, c.name, c.isActive)))
      ensures var (st, c) := step; forall n :: n in chapters && n != c.name ==> chapters[n] != c
    {
      var (st, c) := step;
      var images := Chapters(Opened(st, c.name, c.isActive));
      forall n | n in images
        ensures n in chapters && Pictures(chapters[n], images[n])
      {
        if n != c.name {
          assert old(chapters[n]) in old(chapters.Values);
          PicturesKept((chapters[n], Chapters(st)[n]));
        }
      }
    }

    /** While the manipulator and the directives it holds stay as they were,
        it stays well formed. */
    twostate lemma ValidKept()
      requires old(Valid()) && unchanged(this) && unchanged(directives.Values)
      ensures Valid()
    {
    }

    /** While the chapter `c` stays well formed and no other chapter
        changes, every chapter stays well formed. */
    twostate lemma ChaptersValidKept(c: SofistikChapter)
      requires old(ChaptersValid()) && chapters == old(chapters) && c.Valid()
      requires forall x :: x in old(chapters.Values) && x != c ==> unchanged(x) && unchanged(x.programs.Values, x.directives.Values)
      ensures ChaptersValid()
    {
    }

    /** The state `_build_structure` has reached mirrors the shape `st` of
        its value model: the order is `base` followed by the top-level
        names, and the chapter opened last is `current`, registered under
        its name and under no other recorded name. */
    ghost predicate Mirrors(base: seq<string>, current: SofistikChapter?, st: Shape)
      reads this`order, this`chapters
    {
      order == base + st.top && (current == null <==> st.open.None?) &&
      (current != null ==>
        st.open.value.name in chapters && chapters[st.open.value.name] == current &&
        forall n :: n in st.closed && n != st.open.value.name && n in chapters ==> chapters[n] != current)
    }

    /** The three dictionaries as they stand. */
    ghost function Current(): Entries
      reads this`programs, this`directives, this`chapters
    {
      Entries(programs, directives, chapters)
    }

    /** `_chapters.update({key: c})` and `_order.append(key)`. */
    method PutChapter(key: string, c: SofistikChapter)
      requires Valid() && ChaptersValid() && c.Valid() && Upper(key) == key
      modifies this
      ensures originalContent == old(originalContent)
      ensures Valid() && ChaptersValid()
      ensures chapters == old(chapters)[key := c] && order == old(order) + [key]
      ensures programs == old(programs) && directives == old(directives)
    {
      TouchKeepsRegistered(order, chapterKeys, programKeys, directiveKeys, key);
      AddedChapterValid(chapters, key, c);
      chapterKeys := Touch(chapterKeys, key);
      order := order + [key];
      chapters := chapters[key := c];
      AllChaptersValid();
    }

    /** `ChaptersValid`, from each chapter's validity. */
    lemma AllChaptersValid()
      requires forall c :: c in chapters.Values ==> c.Valid()
      ensures ChaptersValid()
    {
    }

    /** `_programs.update({key: p})` and `_order.append(key)`. */
    method PutProgram(key: string, p: SofistikProgram)
      requires Valid() && Upper(key) == key
      modifies this
      ensures originalContent == old(originalContent)
      ensures Valid()
      ensures programs == old(programs)[key := p] && order == old(order) + [key]
      ensures chapters == old(chapters) && directives == old(directives)
    {
      TouchKeepsRegistered(order, chapterKeys, programKeys, directiveKeys, key);
      programKeys := Touch(programKeys, key);
      order := order + [key];
      programs := programs[key := p];
    }

    /** `_directives.update({key: d})` and `_order.append(key)`. */
    method PutDirective(key: string, d: SystemDirective)
      requires Valid() && d.Valid() && Upper(key) == key
      modifies this
      ensures originalContent == old(originalContent)
      ensures Valid()
      ensures directives == old(directives)[key := d] && order == old(order) + [key]
      ensures chapters == old(chapters) && programs == old(programs)
    {
      TouchKeepsRegistered(order, chapterKeys, programKeys, directiveKeys, key);
      AddedDirectiveValid(directives, key, d);
      directiveKeys := Touch(directiveKeys, key);
      order := order + [key];
      directives := directives[key := d];
    }

    /** A chapter item of `_build_structure`: the header's flag and name
        make a new chapter, registered under its name, which later items
        join. */
    method ChapterItem(temp: seq<string>, item: Span, ghost base: seq<string>, ghost st: Shape,
                       current: SofistikChapter?)
      returns (r: Outcome, next: SofistikChapter?)
      requires Valid() && ChaptersValid() && UpperAt(temp, item.0) && Mirrors(base, current, st) && Holds(st)
      modifies this
      ensures originalContent == old(originalContent)
      ensures Valid() && ChaptersValid()
      ensures r == Done <==> ChapterStep(temp, st, item).Ok?
      ensures r.Raised? ==> r.failure == ChapterStep(temp, st, item).failure && next == current && unchanged(this)
      ensures r == Done ==> fresh(next) && Mirrors(base, next, ChapterStep(temp, st, item).value)
      ensures r == Done ==> Holds(ChapterStep(temp, st, item).value)
      ensures r == Done ==> Extended(old(Current()), Current(), ChapterStep(temp, st, item).value)
    {
      next := current;
      if |temp| <= item.0 {
        return Raised(IndexError), next;
      }
      var line := temp[item.0];
      match ChapterHeader(line)
      case Err(e) =>
        r := Raised(e);
      case Ok(header) =>
        ChapterNameUpper(line);
        assert ChapterStep(temp, st, item) == Ok(Opened(st, header.1, header.0));
        next := OpenChapter(header.1, header.0, base, st, current);
        r := Done;
    }

    /** The chapter a header opens: registered under its name, it becomes
        the one later items join. */
    method OpenChapter(name: string, active: bool, ghost base: seq<string>, ghost st: Shape,
                       current: SofistikChapter?)
      returns (c: SofistikChapter)
      requires Valid() && ChaptersValid() && Mirrors(base, current, st) && Holds(st) && Upper(name) == name
      modifies this
      ensures originalContent == old(originalContent)
      ensures fresh(c) && Valid() && ChaptersValid()
      ensures Mirrors(base, c, Opened(st, name, active)) && Holds(Opened(st, name, active))
      ensures Extended(old(Current()), Current(), Opened(st, name, active))
    {
      c := new SofistikChapter(name, active);
      assert c !in old(chapters.Values);
      PutChapter(name, c);
      AppendAssoc(base, st.top, name);
      HoldsTopKept(st);
      HoldsChaptersOpened((st, c));
      assert Holds(Opened(st, name, active));
      OpenedExtended(old(Current()), st, name, active, c);
    }

    /** A program listed at the top level of a build, outside any chapter. */
    method ListProgram(p: SofistikProgram, ghost base: seq<string>, ghost st: Shape)
      requires Valid() && ChaptersValid() && Mirrors(base, null, st) && Holds(st) && Upper(p.name) == p.name
      modifies this
      ensures originalContent == old(originalContent)
      ensures Valid() && ChaptersValid()
      ensures Mirrors(base, null, st.(top := st.top + [p.name], rows := st.rows[p.name := p.content]))
      ensures Holds(st.(top := st.top + [p.name], rows := st.rows[p.name := p.content]))
      ensures Extended(old(Current()), Current(), st.(top := st.top + [p.name], rows := st.rows[p.name := p.content]))
    {
      PutProgram(p.name, p);
      AppendAssoc(base, st.top, p.name);
      HoldsChaptersKept(Chapters(st));
      ChaptersIgnoreTop(st, st.top + [p.name], st.rows[p.name := p.content], st.texts);
      assert Holds(st.(top := st.top + [p.name], rows := st.rows[p.name := p.content]));
      ListedProgramExtended(old(Current()), st, p.name, p, p.content);
    }

    /** A directive listed at the top level of a build, outside any chapter. */
    method ListDirective(d: SystemDirective, ghost base: seq<string>, ghost st: Shape)
      requires Valid() && ChaptersValid() && Mirrors(base, null, st) && Holds(st) && d.Valid()
      requires Upper(d.content) == d.content
      modifies this
      ensures originalContent == old(originalContent)
      ensures Valid() && ChaptersValid()
      ensures Mirrors(base, null, st.(top := st.top + [d.content], texts := st.texts + {d.content}))
      ensures Holds(st.(top := st.top + [d.content], texts := st.texts + {d.content}))
      ensures Extended(old(Current()), Current(), st.(top := st.top + [d.content], texts := st.texts + {d.content}))
    {
      PutDirective(d.content, d);
      AppendAssoc(base, st.top, d.content);
      HoldsChaptersKept(Chapters(st));
      ChaptersIgnoreTop(st, st.top + [d.content], st.rows, st.texts + {d.content});
      assert Holds(st.(top := st.top + [d.content], texts := st.texts + {d.content}));
      ListedDirectiveExtended(old(Current()), st, d.content, d);
    }

    /** `chapter.add_program(p)` on the open chapter of a build; no other
        chapter changes. */
    method JoinProgram(c: SofistikChapter, p: SofistikProgram, ghost base: seq<string>, ghost st: Shape)
      returns (r: Outcome)
      requires c.Valid() && Mirrors(base, c, st) && Holds(st) && Upper(p.name) == p.name
      modifies c
      ensures c.Valid()
      ensures forall x :: x in old(chapters.Values) && x != c ==> unchanged(x) && unchanged(x.programs.Values, x.directives.Values)
      ensures r == Done <==> ProgramPlaced(st, p.name, p.content).Ok?
      ensures r.Raised? ==> r.failure == RuntimeError
      ensures r == Done ==> Holds(ProgramPlaced(st, p.name, p.content).value)
    {
      ghost var img := st.open.value;
      r := c.AddProgram(p);
      if r == Done {
        ghost var next := ProgramPlaced(st, p.name, p.content).value;
        HoldsTopKept(st);
        PicturesJoinedProgram((c, img, p));
        HoldsChaptersReopened((st, next.open.value));
      }
    }

    /** `chapter.add_directive(d)` on the open chapter of a build; no other
        chapter changes. */
    method JoinDirective(c: SofistikChapter, d: SystemDirective, ghost base: seq<string>, ghost st: Shape)
      returns (r: Outcome)
      requires c.Valid() && Mirrors(base, c, st) && Holds(st) && d.Valid()
      modifies c
      ensures c.Valid()
      ensures forall x :: x in old(chapters.Values) && x != c ==> unchanged(x) && unchanged(x.programs.Values, x.directives.Values)
      ensures r == Done <==> DirectivePlaced(st, d.content).Ok?
      ensures r.Raised? ==> r.failure == RuntimeError
      ensures r == Done ==> Holds(DirectivePlaced(st, d.content).value)
    {
      ghost var img := st.open.value;
      r := c.AddDirective(d);
      if r == Done {
        ghost var next := DirectivePlaced(st, d.content).value;
        HoldsTopKept(st);
        PicturesJoinedDirective((c, img, d));
        HoldsChaptersReopened((st, next.open.value));
      }
    }

    /** A program item of `_build_structure`: the program built from the
        span joins the open chapter, or else the top level under its name. */
    method ProgramItem(temp: seq<string>, item: Span, ghost base: seq<string>, ghost st: Shape,
                       current: SofistikChapter?)
      returns (r: Outcome)
      requires Valid() && ChaptersValid() && UpperAt(temp, item.0 + 1) && Mirrors(base, current, st)
      requires Holds(st)
      modifies this, current
      ensures originalContent == old(originalContent)
      ensures Valid() && ChaptersValid()
      ensures r == Done <==> ProgramStep(temp, st, item).Ok?
      ensures r.Raised? ==> r.failure == ProgramStep(temp, st, item).failure
      ensures r == Done ==> Mirrors(base, current, ProgramStep(temp, st, item).value)
      ensures r == Done ==> Holds(ProgramStep(temp, st, item).value)
      ensures r == Done ==> Extended(old(Current()), Current(), ProgramStep(temp, st, item).value)
    {
      ProgramStepSplits(temp, st, item);
      var built := NewProgram(temp, item);
      HoldsTopKept(st);
      HoldsChaptersKept(Chapters(st));
      if built.Err? {
        return Raised(built.failure);
      }
      r := PlaceProgram(built.value, base, st, current);
    }

    /** A built program joins the open chapter, or else the top level. */
    method PlaceProgram(p: SofistikProgram, ghost base: seq<string>, ghost st: Shape,
                        current: SofistikChapter?)
      returns (r: Outcome)
      requires Valid() && ChaptersValid() && Mirrors(base, current, st)
      requires Holds(st) && Upper(p.name) == p.name
      modifies this, current
      ensures originalContent == old(originalContent)
      ensures Valid() && ChaptersValid()
      ensures r == Done <==> ProgramPlaced(st, p.name, p.content).Ok?
      ensures r.Raised? ==> r.failure == RuntimeError
      ensures r == Done ==> Mirrors(base, current, ProgramPlaced(st, p.name, p.content).value)
      ensures r == Done ==> Holds(ProgramPlaced(st, p.name, p.content).value)
      ensures r == Done ==> Extended(old(Current()), Current(), ProgramPlaced(st, p.name, p.content).value)
    {
      if current == null {
        ListProgram(p, base, st);
        r := Done;
      } else {
        r := JoinProgram(current, p, base, st);
        ValidKept();
        ChaptersValidKept(current);
        JoinedExtended(old(Current()), st, p.name, p.content, "");
      }
    }

    /** A directive item of `_build_structure`: the directive parsed from
        the line joins the open chapter, or else the top level under its
        text. */
    method DirectiveItem(temp: seq<string>, item: Span, ghost base: seq<string>, ghost st: Shape,
                         current: SofistikChapter?)
      returns (r: Outcome)
      requires Valid() && ChaptersValid() && Mirrors(base, current, st) && Holds(st)
      modifies this, current
      ensures originalContent == old(originalContent)
      ensures Valid() && ChaptersValid()
      ensures r == Done <==> DirectiveStep(temp, st, item).Ok?
      ensures r.Raised? ==> r.failure == DirectiveStep(temp, st, item).failure
      ensures r == Done ==> Mirrors(base, current, DirectiveStep(temp, st, item).value)
      ensures r == Done ==> Holds(DirectiveStep(temp, st, item).value)
      ensures r == Done ==> Extended(old(Current()), Current(), DirectiveStep(temp, st, item).value)
    {
      DirectiveStepSplits(temp, st, item);
      var built := ParseDirective(temp, item, base, st, current);
      if built.Err? {
        return Raised(built.failure);
      }
      r := PlaceDirective(built.value, base, st, current);
    }

    /** `NewDirective` during a build: allocating the directive leaves the
        registry and the chapters as they were. */
    method ParseDirective(temp: seq<string>, item: Span, ghost base: seq<string>, ghost st: Shape,
                          current: SofistikChapter?)
      returns (r: Result<SystemDirective>)
      requires Valid() && ChaptersValid() && Mirrors(base, current, st) && Holds(st)
      ensures Valid() && ChaptersValid() && Mirrors(base, current, st) && Holds(st)
      ensures r.Ok? <==> DirectiveBuilt(temp, item).Ok?
      ensures r.Err? ==> r.failure == DirectiveBuilt(temp, item).failure
      ensures r.Ok? ==> fresh(r.value) && r.value.Valid() && r.value.content == DirectiveBuilt(temp, item).value
      ensures r.Ok? ==> Upper(r.value.content) == r.value.content
    {
      r := NewDirective(temp, item);
      HoldsTopKept(st);
      HoldsChaptersKept(Chapters(st));
    }

    /** A parsed directive joins the open chapter, or else the top level. */
    method PlaceDirective(d: SystemDirective, ghost base: seq<string>, ghost st: Shape,
                          current: SofistikChapter?)
      returns (r: Outcome)
      requires Valid() && ChaptersValid() && Mirrors(base, current, st) && Holds(st)
      requires d.Valid() && Upper(d.content) == d.content
      modifies this, current
      ensures originalContent == old(originalContent)
      ensures Valid() && ChaptersValid()
      ensures r == Done <==> DirectivePlaced(st, d.content).Ok?
      ensures r.Raised? ==> r.failure == RuntimeError
      ensures r == Done ==> Mirrors(base, current, DirectivePlaced(st, d.content).value)
      ensures r == Done ==> Holds(DirectivePlaced(st, d.content).value)
      ensures r == Done ==> Extended(old(Current()), Current(), DirectivePlaced(st, d.content).value)
    {
      if current == null {
        ListDirective(d, base, st);
        r := Done;
      } else {
        r := JoinDirective(current, d, base, st);
        ValidKept();
        ChaptersValidKept(current);
        JoinedExtended(old(Current()), st, "", [], d.content);
      }
    }

    /** `initialize`, with the file's lines given: each is stored
        right-stripped after whatever was loaded before, then the structure
        is built from everything loaded. */
    method Initialize(lines: seq<string>) returns (r: Outcome)
      requires Valid() && ChaptersValid()
      modifies this
      ensures originalContent == old(originalContent) + StrippedLines(lines)
      ensures Valid() && ChaptersValid()
      ensures r == Done <==> Structure(originalContent).Ok?
      ensures r.Raised? ==> r.failure == Structure(originalContent).failure
      ensures r == Done ==> order == old(order) + Structure(originalContent).value.top
      ensures r == Done ==> Holds(Structure(originalContent).value)
      ensures r == Done ==> Grown(old(programs), programs, Structure(originalContent).value.rows.Keys)
      ensures r == Done ==> Grown(old(directives), directives, Structure(originalContent).value.texts)
      ensures r == Done ==> Grown(old(chapters), chapters, Chapters(Structure(originalContent).value).Keys)
    {
      var i := 0;
      while i < |lines|
        invariant 0 <= i <= |lines|
        invariant originalContent == old(originalContent) + StrippedLines(lines[..i])
        invariant Valid() && ChaptersValid() && order == old(order)
        invariant programs == old(programs) && directives == old(directives) && chapters == old(chapters)
      {
        assert lines[..i + 1] == lines[..i] + [lines[i]];
        StrippedLinesAppend(lines[..i], lines[i]);
        originalContent := originalContent + [RStrip(lines[i])];
        i := i + 1;
      }
      assert lines[..i] == lines;
      r := BuildStructure();
    }

    /** `_build_structure`: the stored lines are prepared, counted and
        ordered; the first must be a PROG line; then every item is built in
        order, stopping at the first that raises. */
    method BuildStructure() returns (r: Outcome)
      requires Valid() && ChaptersValid()
      modifies this
      ensures Valid() && ChaptersValid() && originalContent == old(originalContent)
      ensures r == Done <==> Structure(originalContent).Ok?
      ensures r.Raised? ==> r.failure == Structure(originalContent).failure
      ensures r == Done ==> order == old(order) + Structure(originalContent).value.top
      ensures r == Done ==> Holds(Structure(originalContent).value)
      ensures r == Done ==> Grown(old(programs), programs, Structure(originalContent).value.rows.Keys)
      ensures r == Done ==> Grown(old(directives), directives, Structure(originalContent).value.texts)
      ensures r == Done ==> Grown(old(chapters), chapters, Chapters(Structure(originalContent).value).Keys)
    {
      var temp := Prepared(originalContent);
      PreparedUpper(originalContent);
      match Items(temp)
      case Err(e) =>
        r := Raised(e);
      case Ok(counted) =>
        if temp == [] {
          return Raised(IndexError);
        }
        if Upper(Slice(LStrip(temp[0]), 1, 5)) != "PROG" {
          return Raised(RuntimeError);
        }
        r := BuildItems(temp, counted.0, counted.1);
    }

    /** The loop of `_build_structure` over the ordered items, with no
        chapter open at first. */
    method BuildItems(temp: seq<string>, found: Found, items: seq<Span>) returns (r: Outcome)
      requires Valid() && ChaptersValid() && AllUpper(temp)
      modifies this
      ensures Valid() && ChaptersValid() && originalContent == old(originalContent)
      ensures r == Done <==> Fold(temp, found, items).Ok?
      ensures r.Raised? ==> r.failure == Fold(temp, found, items).failure
      ensures r == Done ==> order == old(order) + Fold(temp, found, items).value.top
      ensures r == Done ==> Holds(Fold(temp, found, items).value)
      ensures r == Done ==> Grown(old(programs), programs, Fold(temp, found, items).value.rows.Keys)
      ensures r == Done ==> Grown(old(directives), directives, Fold(temp, found, items).value.texts)
      ensures r == Done ==> Grown(old(chapters), chapters, Chapters(Fold(temp, found, items).value).Keys)
    {
      ghost var base := order;
      ghost var start := Current();
      ghost var st := EmptyShape;
      var current: SofistikChapter? := null;
      var k := 0;
      assert order == base + st.top;
      while k < |items|
        invariant 0 <= k <= |items|
        invariant Valid() && ChaptersValid() && originalContent == old(originalContent)
        invariant Fold(temp, found, items[..k]) == Ok(st)
        invariant Mirrors(base, current, st) && Holds(st)
        invariant current != null ==> fresh(current)
        invariant Extended(start, Current(), st)
      {
        FoldNext(temp, found, items, k);
        ghost var mid := Current();
        var outcome, next := BuildItem(temp, found, items[k], base, st, current);
        if outcome.Raised? {
          FoldFailureStays(temp, found, items, k + 1);
          return outcome;
        }
        StepsWithin(temp, found, st, items[k]);
        ExtendedTrans(start, mid, Current(), st, ItemStep(temp, found, st, items[k]).value);
        st := ItemStep(temp, found, st, items[k]).value;
        current := next;
        k := k + 1;
      }
      assert items[..k] == items;
      r := Done;
    }

    /** One pass of `_build_structure`'s loop: the item opens a chapter
        when it is a chapter span, then builds a program when it is a
        program span, then parses a directive when it is a directive span.
        `next` is the chapter opened last afterwards. */
    method BuildItem(temp: seq<string>, found: Found, item: Span, ghost base: seq<string>, ghost st: Shape,
                     current: SofistikChapter?)
      returns (r: Outcome, next: SofistikChapter?)
      requires Valid() && ChaptersValid() && AllUpper(temp) && Mirrors(base, current, st) && Holds(st)
      modifies this, current
      ensures originalContent == old(originalContent)
      ensures Valid() && ChaptersValid()
      ensures r == Done <==> ItemStep(temp, found, st, item).Ok?
      ensures r.Raised? ==> r.failure == ItemStep(temp, found, st, item).failure
      ensures r == Done ==> Mirrors(base, next, ItemStep(temp, found, st, item).value)
      ensures r == Done ==> Holds(ItemStep(temp, found, st, item).value)
      ensures next == current || fresh(next)
      ensures r == Done ==> Extended(old(Current()), Current(), ItemStep(temp, found, st, item).value)
    {
      next := current;
      ghost var st1 := st;
      ExtendedSelf(Current(), st);
      StepsWithin(temp, found, st, item);
      if found.chapters.Some? && item in found.chapters.value {
        r, next := ChapterItem(temp, item, base, st, current);
        if r.Raised? {
          return;
        }
        st1 := ChapterStep(temp, st, item).value;
      }
      ghost var mid := Current();
      r := ContentItem(temp, found, item, base, st1, next);
      if r == Done {
        ContentStepWithin(temp, found, st1, item);
        ExtendedTrans(old(Current()), mid, Current(), st1, ItemStep(temp, found, st, item).value);
      }
    }

    /** The program and directive parts of one pass of the loop, on the
        shape left by its chapter part. */
    method ContentItem(temp: seq<string>, found: Found, item: Span, ghost base: seq<string>, ghost st: Shape,
                       current: SofistikChapter?)
      returns (r: Outcome)
      requires Valid() && ChaptersValid() && AllUpper(temp) && Mirrors(base, current, st) && Holds(st)
      modifies this, current
      ensures originalContent == old(originalContent)
      ensures Valid() && ChaptersValid()
      ensures r == Done <==> ContentStep(temp, found, st, item).Ok?
      ensures r.Raised? ==> r.failure == ContentStep(temp, found, st, item).failure
      ensures r == Done ==> Mirrors(base, current, ContentStep(temp, found, st, item).value)
      ensures r == Done ==> Holds(ContentStep(temp, found, st, item).value)
      ensures r == Done ==> Extended(old(Current()), Current(), ContentStep(temp, found, st, item).value)
    {
      ghost var st1 := st;
      ExtendedSelf(Current(), st);
      if item in found.programs {
        r := ProgramItem(temp, item, base, st, current);
        if r.Raised? {
          return;
        }
        st1 := ProgramStep(temp, st, item).value;
      }
      r := Done;
      if found.directives.Some? && item in found.directives.value {
        ghost var mid := Current();
        DirectiveStepWithin(temp, st1, item);
        r := DirectiveItem(temp, item, base, st1, current);
        if r == Done {
          ExtendedTrans(old(Current()), mid, Current(), st1, DirectiveStep(temp, st1, item).value);
        }
      }
    }

    /** The text `serialize` gives one listed name: a program's rows, a
        chapter's text or a directive's text, tried in that order; a name
        that is none of them raises. */
    function ItemText(item: string): (r: Result<string>)
      reads this, chapters.Values, programs.Values, directives.Values,
            ProgramsIn(chapters.Values), DirectivesIn(chapters.Values)
      ensures Valid() && ChaptersValid() && item in order ==> r.Ok?
    {
      if HasProgram(item) then Ok(programs[Upper(item)].Serialize() + "\n\n")
      else if HasChapter(item) then
        var c := chapters[Upper(item)];
        assert c.programs.Values <= ProgramsIn(chapters.Values);
        assert c.directives.Values <= DirectivesIn(chapters.Values);
        c.Serialize()
      else if HasDirective(item) then Ok(directives[Upper(item)].Serialize() + "\n\n")
      else Err(RuntimeError)
    }

    /** The text of the listed names, in order; it exists whenever the
        manipulator and its chapters are valid and every name is listed. */
    function Rendered(names: seq<string>): (r: Result<string>)
      reads this, chapters.Values, programs.Values, directives.Values,
            ProgramsIn(chapters.Values), DirectivesIn(chapters.Values)
      ensures Valid() && ChaptersValid() && (forall k :: k in names ==> k in order) ==> r.Ok?
    {
      if names == [] then Ok("")
      else
        match Rendered(names[..|names| - 1])
        case Err(e) => Err(e)
        case Ok(text) =>
          match ItemText(names[|names| - 1])
          case Err(e) => Err(e)
          case Ok(item) => Ok(text + item)
    }

    /** Once a prefix of the names fails, the whole list fails the same way. */
    lemma {:induction false} RenderedFailureStays(names: seq<string>, k: nat)
      requires k <= |names| && Rendered(names[..k]).Err?
      ensures Rendered(names) == Rendered(names[..k])
      decreases |names| - k
    {
      if k < |names| {
        assert names[..k + 1][..k] == names[..k];
        RenderedFailureStays(names, k + 1);
      } else {
        assert names[..k] == names;
      }
    }

    /** `serialize`: every listed name's text, in order. */
    method Serialize() returns (r: Result<string>)
      ensures r == Rendered(order)
      ensures Valid() && ChaptersValid() ==> r.Ok?
    {
      var output := "";
      var k := 0;
      while k < |order|
        invariant 0 <= k <= |order|
        invariant Rendered(order[..k]) == Ok(output)
      {
        assert order[..k + 1][..k] == order[..k];
        var item := ItemText(order[k]);
        if item.Err? {
          RenderedFailureStays(order, k + 1);
          return Err(item.failure);
        }
        output := output + item.value;
        k := k + 1;
      }
      assert order[..k] == order;
      r := Ok(output);
    }
  }

  /** `has_chapter`, `has_directive` and `has_program` ignore the case of
      the name they are asked about, and so does `get_program`. */
  lemma ManipulatorLookupIgnoresCase(m: DatManipulator, s: string)
    ensures m.HasChapter(Upper(s)) == m.HasChapter(s)
    ensures m.HasDirective(Upper(s)) == m.HasDirective(s)
    ensures m.HasProgram(Upper(s)) == m.HasProgram(s)
    ensures m.GetProgram(Upper(s)) == m.GetProgram(s)
  {
    UpperIdempotent(s);
  }
}
