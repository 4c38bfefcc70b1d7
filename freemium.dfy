/**
 * The freemium bookkeeping: for each category, the set of word ids marked
 * free in its English vocabulary file, and the counts derived from it and
 * from the learner's word statistics (encountered, remaining, exhausted).
 */
module Freemium {
  import opened Text

  /** The fields of a vocabulary-file entry the service reads. */
  datatype TranslatedItem = TranslatedItem(id: string, isFree: bool)

  /** The fields of a learner's word statistic the service reads. */
  datatype WordStat = WordStat(english: string, category: string)

  /** The categories whose files are loaded. */
  const Topics: seq<string> := ["technology", "finance", "sales", "hr", "strategy"]

  /** The ids marked free in one file. */
  function FreeIds(data: seq<TranslatedItem>): set<string> {
    set i | 0 <= i < |data| && data[i].isFree :: data[i].id
  }

  /** The lowercased English words of a category's statistics that are free in it. */
  function EncounteredSet(freeIds: set<string>, stats: seq<WordStat>, category: string): set<string> {
    set i | 0 <= i < |stats| && stats[i].category == category && Lower(stats[i].english) in freeIds :: Lower(stats[i].english)
  }

  /**
   * The map stored after loading: every topic whose file was fetched (a key
   * of `responses`) maps to that file's free ids; a failed fetch leaves its
   * topic out.
   */
  function FreeMap(responses: map<string, seq<TranslatedItem>>): map<string, set<string>> {
    map t | t in Topics && t in responses :: FreeIds(responses[t])
  }

  /** Lines 51-56: the free ids of one file, gathered in one pass. */
  method CollectFreeIds(data: seq<TranslatedItem>) returns (freeIds: set<string>)
    ensures freeIds == FreeIds(data)
    ensures forall id :: id in freeIds <==> exists i :: 0 <= i < |data| && data[i].isFree && data[i].id == id
  {
    freeIds := {};
    for i := 0 to |data|
      invariant freeIds == FreeIds(data[..i])
    {
      if data[i].isFree {
        freeIds := freeIds + {data[i].id};
      }
      assert data[..i + 1][..i] == data[..i];
      assert data[..i + 1][i] == data[i];
    }
    assert data[..|data|] == data;
  }

  class FreemiumService {
    /** `freeWordIdsByCategory`. */
    var freeWordIdsByCategory: map<string, set<string>>
    /** `isLoading`. */
    var isLoading: bool

    /** The signals' initial values, before the first load completes. */
    constructor()
      ensures freeWordIdsByCategory == map[] && isLoading
    {
      freeWordIdsByCategory := map[];
      isLoading := true;
    }

    /**
     * `loadFreeWordIds` with the HTTP results as a parameter: `responses`
     * holds the parsed file of every topic whose request succeeded.
     */
    method LoadFreeWordIds(responses: map<string, seq<TranslatedItem>>)
      modifies this
      ensures freeWordIdsByCategory == FreeMap(responses)
      ensures !isLoading
    {
      isLoading := true;
      var freeIdsByCategory: map<string, set<string>> := map[];
      for j := 0 to |Topics|
        invariant freeIdsByCategory == map t | t in Topics[..j] && t in responses :: FreeIds(responses[t])
      {
        var topic := Topics[j];
        if topic in responses {
          var freeIds := CollectFreeIds(responses[topic]);
          freeIdsByCategory := freeIdsByCategory[topic := freeIds];
        }
        assert Topics[..j + 1] == Topics[..j] + [topic];
      }
      assert Topics[..|Topics|] == Topics;
      freeWordIdsByCategory := freeIdsByCategory;
      isLoading := false;
    }

    /** `getFreeWordsForCategory`: an unknown category has no free words. */
    function GetFreeWordsForCategory(category: string): (ids: set<string>)
      reads this
      ensures category in freeWordIdsByCategory ==> ids == freeWordIdsByCategory[category]
      ensures category !in freeWordIdsByCategory ==> ids == {}
    {
      if category in freeWordIdsByCategory then freeWordIdsByCategory[category] else {}
    }

    /** `getEncounteredFreeWordCountForCategory`, with the statistics as a parameter. */
    method GetEncounteredFreeWordCountForCategory(category: string, allStats: seq<WordStat>) returns (count: nat)
      ensures count == |EncounteredSet(GetFreeWordsForCategory(category), allStats, category)|
      ensures count <= GetTotalFreeWordsForCategory(category)
    {
      var freeIds := GetFreeWordsForCategory(category);
      var encountered: set<string> := {};
      for i := 0 to |allStats|
        invariant encountered == EncounteredSet(freeIds, allStats[..i], category)
      {
        var stat := allStats[i];
        if stat.category == category && Lower(stat.english) in freeIds {
          encountered := encountered + {Lower(stat.english)};
        }
        assert allStats[..i + 1][..i] == allStats[..i];
        assert allStats[..i + 1][i] == stat;
      }
      assert allStats[..|allStats|] == allStats;
      SubsetSize(encountered, freeIds);
      count := |encountered|;
    }

    /** `getRemainingFreeWordsForCategory`: the free words not yet encountered, never below zero. */
    function GetRemainingFreeWordsForCategory(category: string, allStats: seq<WordStat>): (remaining: nat)
      reads this
      ensures remaining == GetTotalFreeWordsForCategory(category) - |EncounteredSet(GetFreeWordsForCategory(category), allStats, category)|
    {
      var totalFreeWords := |GetFreeWordsForCategory(category)|;
      var encountered := |EncounteredSet(GetFreeWordsForCategory(category), allStats, category)|;
      SubsetSize(EncounteredSet(GetFreeWordsForCategory(category), allStats, category), GetFreeWordsForCategory(category));
      if totalFreeWords - encountered > 0 then totalFreeWords - encountered else 0
    }

    /** `isCategoryExhausted`, with the premium flag as a parameter. */
    function IsCategoryExhausted(category: string, allStats: seq<WordStat>, isPremium: bool): (exhausted: bool)
      reads this
      ensures exhausted ==> !isPremium
    {
      !isPremium && GetRemainingFreeWordsForCategory(category, allStats) == 0
    }

    /** `isFreeWord`: the lowercased word is one of the category's free ids. */
    function IsFreeWord(word: string, category: string): (free: bool)
      reads this
      ensures free ==> category in freeWordIdsByCategory
      ensures free <==> Lower(word) in GetFreeWordsForCategory(category)
    {
      Lower(word) in GetFreeWordsForCategory(category)
    }

    /** `getTotalFreeWordsForCategory`. */
    function GetTotalFreeWordsForCategory(category: string): (total: nat)
      reads this
      ensures total == |GetFreeWordsForCategory(category)|
      ensures category !in freeWordIdsByCategory ==> total == 0
    {
      |GetFreeWordsForCategory(category)|
    }

    // -------------------------------------------------------------------------
    // Properties

    /** A non-premium learner has exhausted a category exactly when every free word of it has been encountered. */
    lemma ExhaustedIff(category: string, allStats: seq<WordStat>, isPremium: bool)
      ensures IsCategoryExhausted(category, allStats, isPremium) <==>
                !isPremium && GetFreeWordsForCategory(category) <= set i | 0 <= i < |allStats| && allStats[i].category == category :: Lower(allStats[i].english)
    {
      var free := GetFreeWordsForCategory(category);
      var seen := set i | 0 <= i < |allStats| && allStats[i].category == category :: Lower(allStats[i].english);
      var e := EncounteredSet(free, allStats, category);
      assert e == free * seen;
      SubsetSize(e, free);
      if |e| == |free| {
        SubsetSameSize(e, free);
        assert free <= seen;
      }
      if free <= seen {
        assert e == free;
      }
    }

    /** Whether a word is free does not depend on its ASCII case. */
    lemma IsFreeWordIgnoresCase(word: string, category: string)
      ensures IsFreeWord(Upper(word), category) == IsFreeWord(word, category)
    {
      LowerOfUpper(word);
    }
  }

  /** Loading only ever fills in the five topics: any other category stays without free words. */
  lemma OnlyTopicsLoaded(responses: map<string, seq<TranslatedItem>>, category: string)
    requires category !in Topics
    ensures category !in FreeMap(responses)
  {
  }

  lemma {:induction false} SubsetSize<T>(a: set<T>, b: set<T>)
    requires a <= b
    ensures |a| <= |b|
    decreases |b|
  {
    if a != {} {
      var x :| x in a;
      SubsetSize(a - {x}, b - {x});
    }
  }

  lemma {:induction false} SubsetSameSize<T>(a: set<T>, b: set<T>)
    requires a <= b && |a| == |b|
    ensures a == b
    decreases |b|
  {
    if a != {} {
      var x :| x in a;
      assert |a - {x}| == |a| - 1 && |b - {x}| == |b| - 1;
      SubsetSameSize(a - {x}, b - {x});
      assert a == (a - {x}) + {x} && b == (b - {x}) + {x};
    } else {
      assert |b| == 0;
    }
  }
}
