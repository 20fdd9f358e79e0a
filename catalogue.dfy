/** Scintilla's lexer catalogue (Catalogue.cxx): an append-only list of lexer
    modules, searched by language id or by language name, filled once by
    Scintilla_LinkLexers.

    The static globals `lexerCatalogue`, `nextLanguage` and `initialised` are
    the fields of one LexerCatalogue object. A module is a value; the pointer a
    lookup returns is the index of the entry in the catalogue. */
module Catalogue {
  import opened Wrappers

  /** SCLEX_AUTOMATIC: the language id a module registers with to be given a fresh id. */
  const SclexAutomatic: int := 1000

  /** A lexer module as the catalogue sees it: its language id and its
      language name (None for a null name). */
  datatype LexerModule = LexerModule(language: int, languageName: Option<string>)

  /** The module as AddLexerModule stores it while nextLanguage is `next`. */
  function Registered(m: LexerModule, next: int): (r: LexerModule)
    ensures r.languageName == m.languageName
    ensures r.language == (if m.language == SclexAutomatic then next else m.language)
  {
    if m.language == SclexAutomatic then m.(language := next) else m
  }

  /** How many of `mods` ask for an automatic language id. */
  function CountAutomatic(mods: seq<LexerModule>): nat
  {
    if mods == [] then 0
    else CountAutomatic(mods[..|mods| - 1]) + (if mods[|mods| - 1].language == SclexAutomatic then 1 else 0)
  }

  /** The entries that registering `mods` in order appends, starting with nextLanguage == `next`. */
  function RegisterAll(mods: seq<LexerModule>, next: int): (r: seq<LexerModule>)
    ensures |r| == |mods|
  {
    if mods == [] then []
    else
      var init := mods[..|mods| - 1];
      RegisterAll(init, next) + [Registered(mods[|mods| - 1], next + CountAutomatic(init))]
  }

  /** Registration keeps names and explicit language ids; the k-th module that
      asks for an automatic id (counting from 0) gets `next + k`. */
  lemma {:induction false} RegisterAllAssigns(mods: seq<LexerModule>, next: int)
    ensures forall k :: 0 <= k < |mods| ==> RegisterAll(mods, next)[k].languageName == mods[k].languageName
    ensures forall k :: 0 <= k < |mods| && mods[k].language != SclexAutomatic ==> RegisterAll(mods, next)[k] == mods[k]
    ensures forall k :: 0 <= k < |mods| && mods[k].language == SclexAutomatic ==>
              RegisterAll(mods, next)[k].language == next + CountAutomatic(mods[..k])
  {
    if mods != [] {
      var n := |mods| - 1;
      var init := mods[..n];
      RegisterAllAssigns(init, next);
      forall k | 0 <= k < n
        ensures mods[..k] == init[..k]
      {
      }
    }
  }

  lemma {:induction false} CountAutomaticAppend(a: seq<LexerModule>, b: seq<LexerModule>)
    ensures CountAutomatic(a + b) == CountAutomatic(a) + CountAutomatic(b)
    decreases |b|
  {
    if b == [] {
      assert a + b == a;
    } else {
      assert (a + b)[..|a + b| - 1] == a + b[..|b| - 1];
      CountAutomaticAppend(a, b[..|b| - 1]);
    }
  }

  /** Registering `a` and then `b` is registering `a + b`. */
  lemma {:induction false} RegisterAllAppend(a: seq<LexerModule>, b: seq<LexerModule>, next: int)
    ensures RegisterAll(a + b, next) == RegisterAll(a, next) + RegisterAll(b, next + CountAutomatic(a))
    decreases |b|
  {
    if b == [] {
      assert a + b == a;
    } else {
      var b' := b[..|b| - 1];
      assert (a + b)[..|a + b| - 1] == a + b';
      RegisterAllAppend(a, b', next);
      CountAutomaticAppend(a, b');
    }
  }

  lemma {:induction false} CountAutomaticGrows(mods: seq<LexerModule>, j: nat, k: nat)
    requires j < k <= |mods| && mods[j].language == SclexAutomatic
    ensures CountAutomatic(mods[..j]) < CountAutomatic(mods[..k])
    decreases k
  {
    assert mods[..k][..k - 1] == mods[..k - 1];
    if j < k - 1 {
      CountAutomaticGrows(mods, j, k - 1);
    }
  }

  /** Automatically assigned language ids are above SCLEX_AUTOMATIC (when the
      counter starts above it), below the counter left afterwards, and strictly
      increase along the catalogue, so no two are equal. */
  lemma AutomaticIdsIncrease(mods: seq<LexerModule>, next: int)
    requires next > SclexAutomatic
    ensures forall k :: 0 <= k < |mods| && mods[k].language == SclexAutomatic ==>
              SclexAutomatic < RegisterAll(mods, next)[k].language < next + CountAutomatic(mods)
    ensures forall j, k :: 0 <= j < k < |mods| && mods[j].language == SclexAutomatic && mods[k].language == SclexAutomatic ==>
              RegisterAll(mods, next)[j].language < RegisterAll(mods, next)[k].language
  {
    RegisterAllAssigns(mods, next);
    forall k | 0 <= k < |mods| && mods[k].language == SclexAutomatic
      ensures RegisterAll(mods, next)[k].language < next + CountAutomatic(mods)
    {
      CountAutomaticGrows(mods, k, |mods|);
      assert mods[..|mods|] == mods;
    }
    forall j, k | 0 <= j < k < |mods| && mods[j].language == SclexAutomatic && mods[k].language == SclexAutomatic
      ensures RegisterAll(mods, next)[j].language < RegisterAll(mods, next)[k].language
    {
      CountAutomaticGrows(mods, j, k);
    }
  }

  /** Index of the first entry with language id `language`. */
  function FirstWithLanguage(entries: seq<LexerModule>, language: int): (r: Option<nat>)
    ensures r.Some? ==> r.value < |entries| && entries[r.value].language == language
    ensures r.Some? ==> forall j :: 0 <= j < r.value ==> entries[j].language != language
    ensures r.None? ==> forall j :: 0 <= j < |entries| ==> entries[j].language != language
  {
    if entries == [] then None
    else if entries[0].language == language then Some(0)
    else match FirstWithLanguage(entries[1..], language)
      case None => None
      case Some(k) => Some(k + 1)
  }

  /** Index of the first entry whose (non-null) name equals `name`; none for a null name. */
  function FirstWithName(entries: seq<LexerModule>, name: Option<string>): (r: Option<nat>)
    ensures name.None? ==> r.None?
    ensures r.Some? ==> r.value < |entries| && entries[r.value].languageName.Some? && entries[r.value].languageName == name
    ensures r.Some? ==> forall j :: 0 <= j < r.value ==> entries[j].languageName.None? || entries[j].languageName != name
    ensures r.None? && name.Some? ==> forall j :: 0 <= j < |entries| ==> entries[j].languageName != name
  {
    if name.None? || entries == [] then None
    else if entries[0].languageName.Some? && entries[0].languageName == name then Some(0)
    else match FirstWithName(entries[1..], name)
      case None => None
      case Some(k) => Some(k + 1)
  }

  lemma RegisterOneMore(mods: seq<LexerModule>, m: LexerModule)
    ensures RegisterAll(mods + [m], SclexAutomatic + 1)
            == RegisterAll(mods, SclexAutomatic + 1) + [Registered(m, SclexAutomatic + 1 + CountAutomatic(mods))]
    ensures CountAutomatic(mods + [m]) == CountAutomatic(mods) + (if m.language == SclexAutomatic then 1 else 0)
  {
    assert (mods + [m])[..|mods|] == mods;
  }

  class LexerCatalogue {
    /** The registered modules, in registration order (`lexerCatalogue`). */
    var lexerCatalogue: seq<LexerModule>
    var nextLanguage: int
    /** Set by the first Scintilla_LinkLexers. */
    var initialised: bool
    /** The modules Scintilla_LinkLexers registers, in order. */
    const linked: seq<LexerModule>
    /** The modules as they were handed to AddLexerModule. */
    ghost var added: seq<LexerModule>

    /** The catalogue and the counter are what registering `added` in order
        produces, from the initial counter SCLEX_AUTOMATIC + 1. */
    ghost predicate Valid()
      reads this
    {
      lexerCatalogue == RegisterAll(added, SclexAutomatic + 1)
      && nextLanguage == SclexAutomatic + 1 + CountAutomatic(added)
    }

    /** The static initial state. */
    constructor (linkedModules: seq<LexerModule>)
      ensures Valid() && linked == linkedModules
      ensures lexerCatalogue == [] && added == [] && nextLanguage == SclexAutomatic + 1 && !initialised
    {
      lexerCatalogue := [];
      nextLanguage := SclexAutomatic + 1;
      initialised := false;
      linked := linkedModules;
      added := [];
    }

    /** Catalogue::AddLexerModule: append the module, first giving it the next
        free language id if it asked for an automatic one. */
    method AddLexerModule(m: LexerModule)
      requires Valid()
      modifies this
      ensures Valid() && added == old(added) + [m] && initialised == old(initialised)
      ensures lexerCatalogue == old(lexerCatalogue) + [Registered(m, old(nextLanguage))]
      ensures nextLanguage == if m.language == SclexAutomatic then old(nextLanguage) + 1 else old(nextLanguage)
    {
      var plm := m;
      if plm.language == SclexAutomatic {
        plm := plm.(language := nextLanguage);
        nextLanguage := nextLanguage + 1;
      }
      lexerCatalogue := lexerCatalogue + [plm];
      RegisterOneMore(added, m);
      added := added + [m];
    }

    /** Scintilla_LinkLexers: the first call registers the linked modules and
        returns 1; every later call returns 0 and changes nothing. */
    method LinkLexers() returns (r: int)
      requires Valid()
      modifies this
      ensures Valid() && initialised
      ensures old(initialised) ==>
                r == 0 && lexerCatalogue == old(lexerCatalogue) && nextLanguage == old(nextLanguage)
                && added == old(added)
      ensures !old(initialised) ==>
                r == 1 && added == old(added) + linked
                && lexerCatalogue == old(lexerCatalogue) + RegisterAll(linked, old(nextLanguage))
                && nextLanguage == old(nextLanguage) + CountAutomatic(linked)
    {
      if initialised {
        return 0;
      }
      ghost var before := added;
      initialised := true;
      AddAll(linked);
      RegisterAllAppend(before, linked, SclexAutomatic + 1);
      CountAutomaticAppend(before, linked);
      r := 1;
    }

    /** The LINK_LEXER sequence: AddLexerModule for each of `mods` in turn. */
    method AddAll(mods: seq<LexerModule>)
      requires Valid()
      modifies this
      ensures Valid() && added == old(added) + mods && initialised == old(initialised)
    {
      for i := 0 to |mods|
        invariant Valid() && initialised == old(initialised)
        invariant added == old(added) + mods[..i]
      {
        assert mods[..i + 1] == mods[..i] + [mods[i]];
        AddLexerModule(mods[i]);
      }
      assert mods[..|mods|] == mods;
    }

    /** Catalogue::Find(int): the first entry with language id `language`,
        after making sure the linked modules are registered. */
    method Find(language: int) returns (r: Option<nat>)
      requires Valid()
      modifies this
      ensures Valid() && initialised
      ensures old(initialised) ==>
                lexerCatalogue == old(lexerCatalogue) && nextLanguage == old(nextLanguage) && added == old(added)
      ensures !old(initialised) ==>
                added == old(added) + linked
                && lexerCatalogue == old(lexerCatalogue) + RegisterAll(linked, old(nextLanguage))
                && nextLanguage == old(nextLanguage) + CountAutomatic(linked)
      ensures r == FirstWithLanguage(lexerCatalogue, language)
    {
      var _ := LinkLexers();
      for i := 0 to |lexerCatalogue|
        invariant forall j :: 0 <= j < i ==> lexerCatalogue[j].language != language
      {
        if lexerCatalogue[i].language == language {
          return Some(i);
        }
      }
      return None;
    }

    /** Catalogue::Find(const char *): the first entry whose name is not null
        and equals `languageName`; nothing for a null `languageName`. */
    method FindByName(languageName: Option<string>) returns (r: Option<nat>)
      requires Valid()
      modifies this
      ensures Valid() && initialised
      ensures old(initialised) ==>
                lexerCatalogue == old(lexerCatalogue) && nextLanguage == old(nextLanguage) && added == old(added)
      ensures !old(initialised) ==>
                added == old(added) + linked
                && lexerCatalogue == old(lexerCatalogue) + RegisterAll(linked, old(nextLanguage))
                && nextLanguage == old(nextLanguage) + CountAutomatic(linked)
      ensures r == FirstWithName(lexerCatalogue, languageName)
    {
      var _ := LinkLexers();
      if languageName.Some? {
        for i := 0 to |lexerCatalogue|
          invariant forall j :: 0 <= j < i ==> lexerCatalogue[j].languageName.None? || lexerCatalogue[j].languageName != languageName
        {
          if lexerCatalogue[i].languageName.Some? && lexerCatalogue[i].languageName == languageName {
            return Some(i);
          }
        }
      }
      return None;
    }
  }
}
