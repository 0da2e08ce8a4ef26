/** The list logic of the localization manager (FloatingSandbox/LocalizationManager.cpp): the
    identifiers of languages, the lookup of a language in the list of available ones, the
    desired language the manager stores, and the sorted, duplicate-free list of available
    languages built from the language directories. wxWidgets' language database enters as a
    function parameter. */
module Localization {
  import opened Wrappers

  /** wxLanguage: the numeric language ids of wxWidgets. */
  type LanguageId = int

  /** A language the game offers: its display name, its identifier and its wxWidgets id. */
  datatype LanguageInfo = LanguageInfo(name: string, identifier: string, languageId: LanguageId)

  /** What wxLocale::FindLanguageInfo and GetLanguageInfo report about a language. */
  datatype WxLanguageInfo = WxLanguageInfo(language: LanguageId, canonicalName: string, description: string)

  // ---- Identifiers ----

  /** The index of the first '_' of `s`, or its length when there is none. */
  function FirstUnderscore(s: string): (k: nat)
    ensures k <= |s|
    ensures forall i :: 0 <= i < k ==> s[i] != '_'
    ensures k < |s| ==> s[k] == '_'
  {
    if s == [] || s[0] == '_' then 0 else 1 + FirstUnderscore(s[1..])
  }

  /** MakeLanguageIdentifier: wxString::BeforeFirst('_'), the part of the canonical name before
      its first underscore ("pt" for "pt_BR"), or the whole name when it has none. */
  function MakeLanguageIdentifier(canonicalLanguageName: string): (identifier: string)
    ensures identifier <= canonicalLanguageName
    ensures '_' !in identifier
    ensures identifier == canonicalLanguageName || canonicalLanguageName[|identifier|] == '_'
  {
    canonicalLanguageName[..FirstUnderscore(canonicalLanguageName)]
  }

  /** A name without an underscore is its own identifier, and an identifier is unchanged by
      being made an identifier again. */
  lemma MakeLanguageIdentifierFixesPlainNames(name: string)
    ensures '_' !in name ==> MakeLanguageIdentifier(name) == name
    ensures MakeLanguageIdentifier(MakeLanguageIdentifier(name)) == MakeLanguageIdentifier(name)
  {
  }

  // ---- Lookup ----

  /** What a lookup searches by: the wxWidgets language id or the language identifier. */
  datatype LanguageKey = ByLanguageId(languageId: LanguageId) | ByIdentifier(identifier: string)

  predicate Matches(language: LanguageInfo, key: LanguageKey) {
    match key
    case ByLanguageId(languageId) => language.languageId == languageId
    case ByIdentifier(identifier) => language.identifier == identifier
  }

  /** The first index at or after `from` whose language matches the key: the std::find_if
      loop both FindLanguageInfo overloads run. */
  function FindFrom(key: LanguageKey, languages: seq<LanguageInfo>, from: nat): (r: Option<nat>)
    requires from <= |languages|
    ensures r.Some? ==> from <= r.value < |languages| && Matches(languages[r.value], key)
    ensures r.Some? ==> forall j :: from <= j < r.value ==> !Matches(languages[j], key)
    ensures r.None? ==> forall j :: from <= j < |languages| ==> !Matches(languages[j], key)
    decreases |languages| - from
  {
    if from == |languages| then None
    else if Matches(languages[from], key) then Some(from)
    else FindFrom(key, languages, from + 1)
  }

  /** FindLanguageInfo(wxLanguage): the position of the first available language with that
      id, or none (nullptr) when no language has it. */
  function FindLanguageInfoByLanguageId(languageId: LanguageId, availableLanguages: seq<LanguageInfo>): (r: Option<nat>)
    ensures r.Some? ==> r.value < |availableLanguages| && availableLanguages[r.value].languageId == languageId
    ensures r.Some? ==> forall j :: 0 <= j < r.value ==> availableLanguages[j].languageId != languageId
    ensures r.None? <==> forall j :: 0 <= j < |availableLanguages| ==> availableLanguages[j].languageId != languageId
  {
    FindFrom(ByLanguageId(languageId), availableLanguages, 0)
  }

  /** FindLanguageInfo(identifier): the position of the first available language with that
      identifier, or none when no language has it. */
  function FindLanguageInfoByIdentifier(identifier: string, availableLanguages: seq<LanguageInfo>): (r: Option<nat>)
    ensures r.Some? ==> r.value < |availableLanguages| && availableLanguages[r.value].identifier == identifier
    ensures r.Some? ==> forall j :: 0 <= j < r.value ==> availableLanguages[j].identifier != identifier
    ensures r.None? <==> forall j :: 0 <= j < |availableLanguages| ==> availableLanguages[j].identifier != identifier
  {
    FindFrom(ByIdentifier(identifier), availableLanguages, 0)
  }

  /** In a list whose identifiers are distinct, the lookup finds exactly the language with
      that identifier. */
  lemma FindByIdentifierInDistinctList(availableLanguages: seq<LanguageInfo>, k: nat)
    requires k < |availableLanguages|
    requires forall i, j :: 0 <= i < j < |availableLanguages| ==> availableLanguages[i].identifier != availableLanguages[j].identifier
    ensures FindLanguageInfoByIdentifier(availableLanguages[k].identifier, availableLanguages) == Some(k)
  {
  }

  /** The message of the logic_error StoreDesiredLanguage throws. */
  function UnrecognizedLanguageMessage(languageIdentifier: string): string {
    "Unrecognized language identifier \"" + languageIdentifier + "\""
  }

  class LocalizationManager {
    const availableLanguages: seq<LanguageInfo>
    var desiredLanguage: Option<LanguageInfo>

    constructor (desiredLanguage: Option<LanguageInfo>, availableLanguages: seq<LanguageInfo>)
      ensures this.desiredLanguage == desiredLanguage && this.availableLanguages == availableLanguages
    {
      this.desiredLanguage := desiredLanguage;
      this.availableLanguages := availableLanguages;
    }

    /** StoreDesiredLanguage: with an identifier, the desired language becomes the first
        available language with it, and an unknown identifier fails with the logic_error's
        message, leaving the desired language as it was; without one, the desired language is
        reset. */
    method StoreDesiredLanguage(languageIdentifier: Option<string>) returns (error: Option<string>)
      modifies this
      ensures languageIdentifier.None? ==> error.None? && desiredLanguage.None?
      ensures languageIdentifier.Some? ==>
        match FindLanguageInfoByIdentifier(languageIdentifier.value, availableLanguages)
        case None => error == Some(UnrecognizedLanguageMessage(languageIdentifier.value)) && desiredLanguage == old(desiredLanguage)
        case Some(k) => error.None? && desiredLanguage == Some(availableLanguages[k])
      ensures error.Some? ==> desiredLanguage == old(desiredLanguage)
      ensures desiredLanguage.Some? && error.None? ==> desiredLanguage.value in availableLanguages
    {
      if languageIdentifier.Some? {
        var languageInfo := FindLanguageInfoByIdentifier(languageIdentifier.value, availableLanguages);
        if languageInfo.None? {
          return Some(UnrecognizedLanguageMessage(languageIdentifier.value));
        }
        desiredLanguage := Some(availableLanguages[languageInfo.value]);
      } else {
        desiredLanguage := None;
      }
      error := None;
    }
  }

  // ---- Name order ----

  /** std::string's operator<: lexicographic order on the characters' codes, a proper prefix
      coming first. */
  predicate StringLess(a: string, b: string) {
    if a == [] then b != []
    else if b == [] then false
    else if a[0] != b[0] then a[0] < b[0]
    else StringLess(a[1..], b[1..])
  }

  lemma {:induction false} StringLessIrreflexive(a: string)
    ensures !StringLess(a, a)
  {
    if a != [] {
      StringLessIrreflexive(a[1..]);
    }
  }

  lemma {:induction false} StringLessTransitive(a: string, b: string, c: string)
    requires StringLess(a, b) && StringLess(b, c)
    ensures StringLess(a, c)
  {
    if a != [] && b != [] && c != [] && a[0] == b[0] == c[0] {
      StringLessTransitive(a[1..], b[1..], c[1..]);
    }
  }

  /** Two different strings are ordered one way or the other, and never both. */
  lemma {:induction false} StringLessTotal(a: string, b: string)
    ensures a != b ==> StringLess(a, b) || StringLess(b, a)
    ensures !(StringLess(a, b) && StringLess(b, a))
  {
    if a != [] && b != [] && a[0] == b[0] {
      StringLessTotal(a[1..], b[1..]);
      if a != b {
        assert a == [a[0]] + a[1..] && b == [b[0]] + b[1..];
      }
    }
  }

  /** Names in non-decreasing order, as std::sort leaves them. */
  ghost predicate SortedByName(s: seq<LanguageInfo>) {
    forall i, j :: 0 <= i < j < |s| ==> !StringLess(s[j].name, s[i].name)
  }

  /** Names in strictly increasing order: sorted and without repeats. */
  ghost predicate StrictlyAscendingByName(s: seq<LanguageInfo>) {
    forall i, j :: 0 <= i < j < |s| ==> StringLess(s[i].name, s[j].name)
  }

  function NameSet(s: seq<LanguageInfo>): set<string> {
    set l | l in s :: l.name
  }

  /** Not-greater-than is transitive. */
  lemma NotLessTransitive(a: string, b: string, c: string)
    requires !StringLess(b, a) && !StringLess(c, b)
    ensures !StringLess(c, a)
  {
    StringLessTotal(a, b);
    StringLessTotal(b, c);
    if a != b && b != c {
      StringLessTransitive(a, b, c);
      StringLessTotal(a, c);
    }
  }

  /** `x` put into the sorted list before the first name that is not smaller. */
  function InsertByName(x: LanguageInfo, s: seq<LanguageInfo>): (r: seq<LanguageInfo>)
    ensures multiset(r) == multiset(s) + multiset{x}
  {
    if s == [] || !StringLess(s[0].name, x.name) then [x] + s
    else
      assert s == [s[0]] + s[1..];
      [s[0]] + InsertByName(x, s[1..])
  }

  /** Inserting into a sorted list keeps it sorted. */
  lemma {:induction false} InsertByNameSorted(x: LanguageInfo, s: seq<LanguageInfo>)
    requires SortedByName(s)
    ensures SortedByName(InsertByName(x, s))
  {
    if s == [] || !StringLess(s[0].name, x.name) {
      forall y: LanguageInfo | y in multiset(s)
        ensures !StringLess(y.name, x.name)
      {
        var k :| 0 <= k < |s| && s[k] == y;
        assert !StringLess(s[k].name, s[0].name) || k == 0;
        StringLessIrreflexive(s[0].name);
        NotLessTransitive(x.name, s[0].name, y.name);
      }
      PrependSmallestSorted(x, s);
    } else {
      assert SortedByName(s[1..]);
      InsertByNameSorted(x, s[1..]);
      var tail := InsertByName(x, s[1..]);
      assert s == [s[0]] + s[1..];
      forall y: LanguageInfo | y in multiset(tail)
        ensures !StringLess(y.name, s[0].name)
      {
        if y == x {
          StringLessTotal(s[0].name, x.name);
        } else {
          assert y in multiset(s[1..]);
          var k :| 0 <= k < |s[1..]| && s[1..][k] == y;
          assert !StringLess(s[k + 1].name, s[0].name);
        }
      }
      PrependSmallestSorted(s[0], tail);
    }
  }

  /** Putting a name no greater than any other in front of a sorted list keeps it sorted. */
  lemma PrependSmallestSorted(x: LanguageInfo, s: seq<LanguageInfo>)
    requires SortedByName(s)
    requires forall y: LanguageInfo | y in multiset(s) :: !StringLess(y.name, x.name)
    ensures SortedByName([x] + s)
  {
    var r := [x] + s;
    forall i, j | 0 <= i < j < |r|
      ensures !StringLess(r[j].name, r[i].name)
    {
      if i == 0 {
        assert r[j] == s[j - 1];
        assert r[j] in multiset(s);
      } else {
        assert r[i] == s[i - 1] && r[j] == s[j - 1];
      }
    }
  }

  /** The languages sorted by name (an insertion sort); std::sort does not promise which of
      two languages with the same name comes first, and neither does this model use it. */
  function SortByName(s: seq<LanguageInfo>): (r: seq<LanguageInfo>)
    ensures multiset(r) == multiset(s)
    ensures SortedByName(r)
  {
    if s == [] then []
    else
      assert s == [s[0]] + s[1..];
      InsertByNameSorted(s[0], SortByName(s[1..]));
      InsertByName(s[0], SortByName(s[1..]))
  }

  /** std::unique with equal names: of every run of consecutive languages with the same
      name, only the first is kept. */
  function UniqueByName(s: seq<LanguageInfo>): (r: seq<LanguageInfo>)
    ensures |s| > 0 ==> |r| > 0 && r[0] == s[0]
    ensures forall l :: l in r ==> l in s
    ensures NameSet(r) == NameSet(s)
  {
    if |s| <= 1 then s
    else
      var rest := UniqueByName(s[1..]);
      assert s == [s[0]] + s[1..];
      assert NameSet(s) == {s[0].name} + NameSet(s[1..]);
      if s[0].name == rest[0].name then
        var r := [s[0]] + rest[1..];
        assert rest == [rest[0]] + rest[1..];
        assert NameSet(rest) == {rest[0].name} + NameSet(rest[1..]);
        assert NameSet(r) == {s[0].name} + NameSet(rest[1..]);
        r
      else
        var r := [s[0]] + rest;
        assert NameSet(r) == {s[0].name} + NameSet(rest);
        r
  }

  /** On a sorted list, keeping the first of each run leaves the names strictly ascending. */
  lemma {:induction false} UniqueOfSortedIsStrictlyAscending(s: seq<LanguageInfo>)
    requires SortedByName(s)
    ensures StrictlyAscendingByName(UniqueByName(s))
  {
    if |s| > 1 {
      assert SortedByName(s[1..]);
      UniqueOfSortedIsStrictlyAscending(s[1..]);
      var rest := UniqueByName(s[1..]);
      var r := UniqueByName(s);
      assert rest[0] == s[1];
      assert !StringLess(s[1].name, s[0].name);
      forall i, j | 0 <= i < j < |r|
        ensures StringLess(r[i].name, r[j].name)
      {
        if i == 0 {
          if s[0].name == rest[0].name {
            assert r[j] == rest[j];
            assert StringLess(rest[0].name, rest[j].name);
          } else {
            assert r[j] == rest[j - 1];
            StringLessTotal(s[0].name, rest[0].name);
            if j - 1 > 0 {
              assert StringLess(rest[0].name, rest[j - 1].name);
              StringLessTransitive(s[0].name, rest[0].name, rest[j - 1].name);
            }
          }
        } else {
          if s[0].name == rest[0].name {
            assert r[i] == rest[i] && r[j] == rest[j];
          } else {
            assert r[i] == rest[i - 1] && r[j] == rest[j - 1];
          }
        }
      }
    }
  }

  /** The sort and distinct step of MakeAvailableLanguages: names strictly ascending, every name
      of the input present once, and every entry one of the input's. */
  function SortAndDistinct(languages: seq<LanguageInfo>): (r: seq<LanguageInfo>)
    ensures StrictlyAscendingByName(r)
    ensures NameSet(r) == NameSet(languages)
    ensures forall l :: l in r ==> l in languages
  {
    var sorted := SortByName(languages);
    UniqueOfSortedIsStrictlyAscending(sorted);
    assert forall l :: l in sorted <==> l in multiset(sorted);
    assert NameSet(sorted) == NameSet(languages) by {
      assert forall l :: l in sorted <==> l in languages by {
        forall l ensures l in sorted <==> l in languages {
          assert l in sorted <==> l in multiset(sorted);
          assert l in languages <==> l in multiset(languages);
        }
      }
    }
    UniqueByName(sorted)
  }

  /** A directory under the languages root: its name and whether it is a directory. */
  datatype DirectoryEntry = DirectoryEntry(stem: string, isDirectory: bool)

  /** MakeDefaultLanguage: the language of the message ids, with its full canonical name as
      identifier. */
  function MakeDefaultLanguage(msgIdLanguageInfo: WxLanguageInfo): (l: LanguageInfo)
    ensures l.languageId == msgIdLanguageInfo.language && l.name == msgIdLanguageInfo.description
    ensures l.identifier == msgIdLanguageInfo.canonicalName
  {
    LanguageInfo(msgIdLanguageInfo.description, msgIdLanguageInfo.canonicalName, msgIdLanguageInfo.language)
  }

  /** The language a directory stands for, when it is a directory wxWidgets recognizes. */
  function EntryLanguage(entry: DirectoryEntry, findLanguageInfo: string -> Option<WxLanguageInfo>): Option<LanguageInfo> {
    if !entry.isDirectory then None
    else match findLanguageInfo(entry.stem)
      case None => None
      case Some(info) => Some(LanguageInfo(info.description, MakeLanguageIdentifier(info.canonicalName), info.language))
  }

  /** The languages of the first `n` entries, in order. */
  function DetectedLanguages(entries: seq<DirectoryEntry>, n: nat, findLanguageInfo: string -> Option<WxLanguageInfo>)
    : seq<LanguageInfo>
    requires n <= |entries|
  {
    if n == 0 then []
    else
      var before := DetectedLanguages(entries, n - 1, findLanguageInfo);
      match EntryLanguage(entries[n - 1], findLanguageInfo)
      case None => before
      case Some(l) => before + [l]
  }

  /** Every detected language comes from a directory wxWidgets recognizes, and takes the
      identifier its canonical name gives; every such directory contributes its language. */
  lemma {:induction false} DetectedLanguagesFromEntries(
    entries: seq<DirectoryEntry>, n: nat, findLanguageInfo: string -> Option<WxLanguageInfo>)
    requires n <= |entries|
    ensures forall l :: l in DetectedLanguages(entries, n, findLanguageInfo) ==>
      exists k :: 0 <= k < n && EntryLanguage(entries[k], findLanguageInfo) == Some(l)
    ensures forall k :: 0 <= k < n && EntryLanguage(entries[k], findLanguageInfo).Some? ==>
      EntryLanguage(entries[k], findLanguageInfo).value in DetectedLanguages(entries, n, findLanguageInfo)
  {
    if n > 0 {
      DetectedLanguagesFromEntries(entries, n - 1, findLanguageInfo);
    }
  }

  /** MakeAvailableLanguages: the recognized language directories, in their enumeration order,
      plus the language of the message ids, sorted by name without repeated names. The
      directory enumeration is the parameter `entries`, and wxLocale::FindLanguageInfo is
      `findLanguageInfo`. */
  method MakeAvailableLanguages(
    entries: seq<DirectoryEntry>, findLanguageInfo: string -> Option<WxLanguageInfo>, msgIdLanguageInfo: WxLanguageInfo)
    returns (languages: seq<LanguageInfo>)
    ensures languages == SortAndDistinct(DetectedLanguages(entries, |entries|, findLanguageInfo) + [MakeDefaultLanguage(msgIdLanguageInfo)])
    ensures StrictlyAscendingByName(languages)
    ensures msgIdLanguageInfo.description in NameSet(languages)
  {
    languages := [];
    var i := 0;
    while i < |entries|
      invariant 0 <= i <= |entries|
      invariant languages == DetectedLanguages(entries, i, findLanguageInfo)
    {
      var entry := entries[i];
      if entry.isDirectory {
        var wxLangInfo := findLanguageInfo(entry.stem);
        if wxLangInfo.Some? {
          languages := languages + [LanguageInfo(wxLangInfo.value.description,
            MakeLanguageIdentifier(wxLangInfo.value.canonicalName), wxLangInfo.value.language)];
        }
      }
      i := i + 1;
    }
    var defaultLanguage := MakeDefaultLanguage(msgIdLanguageInfo);
    languages := languages + [defaultLanguage];
    assert defaultLanguage.name in NameSet(languages);
    languages := SortAndDistinct(languages);
  }
}
