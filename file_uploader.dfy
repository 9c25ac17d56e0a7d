/** Column normalisation, validation and the post-load transforms of the
    uploader (modules/file_uploader.py). Column names are strings; the
    loaded table and the session store are passed in. */
module FileUploader {
  import opened Tables
  import opened Sorting

  // ---------------------------------------------------------------------
  // Strings

  /** Python's `str.isspace`. */
  predicate IsSpace(c: char)
  {
    || c == ' ' || '\t' <= c <= '\r' || '\U{1c}' <= c <= '\U{1f}'
    || c == '\U{85}' || c == '\U{a0}' || c == '\U{1680}' || '\U{2000}' <= c <= '\U{200a}'
    || c == '\U{2028}' || c == '\U{2029}' || c == '\U{202f}' || c == '\U{205f}' || c == '\U{3000}'
  }

  function StripLeft(s: string): (r: string)
    ensures |r| <= |s| && r == s[|s| - |r|..]
    ensures forall k :: 0 <= k < |s| - |r| ==> IsSpace(s[k])
    ensures r == [] || !IsSpace(r[0])
  {
    if s != [] && IsSpace(s[0]) then StripLeft(s[1..]) else s
  }

  function StripRight(s: string): (r: string)
    ensures |r| <= |s| && r == s[..|r|]
    ensures forall k :: |r| <= k < |s| ==> IsSpace(s[k])
    ensures r == [] || !IsSpace(r[|r| - 1])
  {
    if s != [] && IsSpace(s[|s| - 1]) then StripRight(s[..|s| - 1]) else s
  }

  /** Whitespace dropped before `left` and after `r`, where `left` is a
      suffix of `s` and `r` a prefix of `left`: `r` is the slice of `s`
      between them. */
  lemma TrimmedSlice(s: string, left: string, r: string)
    requires |left| <= |s| && left == s[|s| - |left|..]
    requires forall k :: 0 <= k < |s| - |left| ==> IsSpace(s[k])
    requires left == [] || !IsSpace(left[0])
    requires |r| <= |left| && r == left[..|r|]
    requires forall m :: |r| <= m < |left| ==> IsSpace(left[m])
    requires r == [] || !IsSpace(r[|r| - 1])
    ensures r == [] || (!IsSpace(r[0]) && !IsSpace(r[|r| - 1]))
    ensures |r| <= |s|
    ensures var i := |s| - |left|;
            && i + |r| <= |s| && (forall j :: 0 <= j < |r| ==> r[j] == s[i + j])
            && (forall k :: 0 <= k < i ==> IsSpace(s[k]))
            && (forall k :: i + |r| <= k < |s| ==> IsSpace(s[k]))
  {
    var i := |s| - |left|;
    assert r != [] ==> r[0] == left[0];
    forall k | i + |r| <= k < |s|
      ensures IsSpace(s[k])
    {
      assert s[k] == left[k - i];
    }
    forall j | 0 <= j < |r|
      ensures r[j] == s[i + j]
    {
      assert r[j] == left[j];
    }
  }

  /** `str.strip()`: drops the whitespace at both ends, and only there. */
  function Strip(s: string): (r: string)
    ensures r == [] || (!IsSpace(r[0]) && !IsSpace(r[|r| - 1]))
    ensures |r| <= |s|
    ensures var i := |s| - |StripLeft(s)|;
            && i + |r| <= |s| && (forall j :: 0 <= j < |r| ==> r[j] == s[i + j])
            && (forall k :: 0 <= k < i ==> IsSpace(s[k]))
            && (forall k :: i + |r| <= k < |s| ==> IsSpace(s[k]))
  {
    var left := StripLeft(s);
    var r := StripRight(left);
    TrimmedSlice(s, left, r);
    r
  }

  /** Stripping twice strips nothing more. */
  lemma StripIdempotent(s: string)
    ensures Strip(Strip(s)) == Strip(s)
  {
    var r := Strip(s);
    assert StripLeft(r) == r;
    assert StripRight(r) == r;
  }

  /** `str.lower()` on one character: ASCII capitals only. */
  function LowerChar(c: char): (d: char)
    ensures (d == c) <==> !('A' <= c <= 'Z')
    ensures !('A' <= d <= 'Z')
    ensures 'A' <= c <= 'Z' ==> d as int - c as int == 'a' as int - 'A' as int
  {
    if 'A' <= c <= 'Z' then (c as int + 32) as char else c
  }

  /** `str.lower()`, character by character. */
  function Lower(s: string): (r: string)
    ensures |r| == |s|
    ensures forall i :: 0 <= i < |s| ==> r[i] == LowerChar(s[i])
  {
    if s == [] then [] else [LowerChar(s[0])] + Lower(s[1..])
  }

  /** Lower-casing twice is lower-casing once, so a key of `lower_existing`
      is found again by the lower-cased alias. */
  lemma LowerIdempotent(s: string)
    ensures Lower(Lower(s)) == Lower(s)
  {
    var r := Lower(s);
    forall i | 0 <= i < |s| ensures Lower(r)[i] == r[i] {
      assert r[i] == LowerChar(s[i]);
    }
  }

  // ---------------------------------------------------------------------
  // The alias table

  /** The alias table as the dict display lists it: 학습시간 appears twice. */
  const AliasLiteral: seq<(string, seq<string>)> := [
    ("멤버사명", ["회사", "회사명", "멤버사", "Group", "Company", "company", "company_name", "company_name_kor"]),
    ("연도", ["년도", "Year", "year", "yr", "base_year"]),
    ("월", ["월(숫자)", "month", "Month", "mm", "base_yearmonth"]),
    ("학습시간", ["시간", "학습 시간", "LearningTime", "learning_time", "total_learning_time", "time", "learn_time"]),
    ("카테고리명", ["카테고리", "분류", "Category", "category", "category_name", "category_name_kor"]),
    ("학습자수", ["수강자수", "인원수", "Learners", "learners", "num_learners", "learner_count", "학습인원", "이수인원"]),
    ("학습카드명", ["카드명", "콘텐츠명", "과정명", "CourseName", "course_name", "card_name", "card_name_kor"]),
    ("평균학습시간", ["평균 시간", "AvgTime", "avg_learning_time", "avg_time"]),
    ("완료률", ["완료율", "CompletionRate", "completion_rate"]),
    ("검색어", ["키워드", "Keyword", "keyword", "search_term", "key_word"]),
    ("검색횟수", ["검색수", "SearchCount", "검색 건수", "search_count", "count"]),
    ("영역명", ["영역", "분야", "area", "area_name", "세부과정명"]),
    ("이수인원", ["이수 인원", "CompletionCount", "completion_count", "네트웍스"]),
    ("인증인원", ["인증 인원", "CertificationCount", "certification_count"]),
    ("도전중인원", ["도전 인원", "챌린지 인원", "in_progress_count", "challenge_count"]),
    ("이수율", ["CompletionRate", "이수 비율", "completion_rate"]),
    ("개인ID", ["사번", "EMPID", "사원번호", "ID", "person_id", "employee_id", "user_id", "개인 ID"]),
    ("BadgeID", ["배지ID", "배지 아이디", "badge_id"]),
    ("Badge명", ["배지명", "BadgeName", "badge_name", "뱃지명"]),
    ("학습시간", ["시간", "학습 시간", "LearningTime", "learning_time", "total_learning_time", "time", "learn_time", "학습시간(분)"])
  ]

  function Keys<V>(pairs: seq<(string, V)>): (ks: seq<string>)
    ensures |ks| == |pairs| && forall i :: 0 <= i < |pairs| ==> ks[i] == pairs[i].0
  {
    if pairs == [] then [] else Keys(pairs[..|pairs| - 1]) + [pairs[|pairs| - 1].0]
  }

  /** A Python dict display: a repeated key keeps the position of its first
      occurrence and takes the value of its last. */
  function DictFromPairs<V>(pairs: seq<(string, V)>): (d: seq<(string, V)>)
    ensures NoDuplicates(Keys(d))
  {
    if pairs == [] then []
    else
      var n := |pairs| - 1;
      var front := DictFromPairs(pairs[..n]);
      var k := IndexOf(Keys(front), pairs[n].0);
      assert k.Some? ==> Keys(front[k.value := pairs[n]]) == Keys(front);
      assert k.None? ==> Keys(front + [pairs[n]]) == Keys(front) + [pairs[n].0];
      if k.Some? then front[k.value := pairs[n]] else front + [pairs[n]]
  }

  lemma {:induction false} DictFromPairsDistinct<V>(pairs: seq<(string, V)>)
    requires NoDuplicates(Keys(pairs))
    ensures DictFromPairs(pairs) == pairs
  {
    if pairs != [] {
      var n := |pairs| - 1;
      assert Keys(pairs[..n]) == Keys(pairs)[..n];
      DictFromPairsDistinct(pairs[..n]);
      assert pairs[n].0 !in Keys(pairs[..n]);
      assert pairs == pairs[..n] + [pairs[n]];
    }
  }

  lemma DictFromPairsAppend<V>(pairs: seq<(string, V)>, x: (string, V))
    ensures var d := DictFromPairs(pairs);
            var k := IndexOf(Keys(d), x.0);
            DictFromPairs(pairs + [x]) == if k.Some? then d[k.value := x] else d + [x]
  {
    assert (pairs + [x])[..|pairs|] == pairs;
  }

  /** The value the last pair with `key` gives it. */
  function LastValue<V>(pairs: seq<(string, V)>, key: string): (v: Option<V>)
    ensures v.None? <==> key !in Keys(pairs)
  {
    if pairs == [] then None
    else if pairs[|pairs| - 1].0 == key then Some(pairs[|pairs| - 1].1)
    else LastValue(pairs[..|pairs| - 1], key)
  }

  /** Each key once, in the order of its first occurrence. */
  function FirstOccurrences(ks: seq<string>): (r: seq<string>)
    ensures forall key :: key in r <==> key in ks
  {
    if ks == [] then []
    else
      var front := FirstOccurrences(ks[..|ks| - 1]);
      if ks[|ks| - 1] in ks[..|ks| - 1] then front else front + [ks[|ks| - 1]]
  }

  /** The last pair of a dict display either overwrites the value of an
      earlier key in place or adds its key at the end. */
  lemma DictFromPairsLast<V>(pairs: seq<(string, V)>)
    requires pairs != []
    ensures var x := pairs[|pairs| - 1];
            var front := DictFromPairs(pairs[..|pairs| - 1]);
            var k := IndexOf(Keys(front), x.0);
            && (k.Some? ==> DictFromPairs(pairs) == front[k.value := x] && Keys(front[k.value := x]) == Keys(front))
            && (k.None? ==> DictFromPairs(pairs) == front + [x] && Keys(front + [x]) == Keys(front) + [x.0])
  {
  }

  /** The keys of a dict display, in the order of their first occurrence. */
  lemma {:induction false} DictFromPairsKeys<V>(pairs: seq<(string, V)>)
    ensures Keys(DictFromPairs(pairs)) == FirstOccurrences(Keys(pairs))
  {
    if pairs != [] {
      var n := |pairs| - 1;
      DictFromPairsKeys(pairs[..n]);
      DictFromPairsLast(pairs);
      assert Keys(pairs)[..n] == Keys(pairs[..n]);
    }
  }

  /** Each key of a dict display holds the value of its last pair. */
  lemma {:induction false} DictFromPairsValues<V>(pairs: seq<(string, V)>)
    ensures var d := DictFromPairs(pairs);
            forall j :: 0 <= j < |d| ==> LastValue(pairs, d[j].0) == Some(d[j].1)
  {
    if pairs != [] {
      var n := |pairs| - 1;
      var x := pairs[n];
      var front := DictFromPairs(pairs[..n]);
      DictFromPairsValues(pairs[..n]);
      DictFromPairsLast(pairs);
      var d := DictFromPairs(pairs);
      var k := IndexOf(Keys(front), x.0);
      forall j | 0 <= j < |d|
        ensures LastValue(pairs, d[j].0) == Some(d[j].1)
      {
        if (k.Some? && j != k.value) || (k.None? && j < |front|) {
          assert d[j] == front[j];
          assert k.Some? ==> Keys(front)[j] != Keys(front)[k.value];
          assert d[j].0 != x.0;
          assert LastValue(pairs, d[j].0) == LastValue(pairs[..n], front[j].0);
        } else {
          assert d[j] == x;
        }
      }
    }
  }

  /** A key given again after distinct keys overwrites the value in place. */
  lemma IndexOfDistinct(ks: seq<string>, i: nat)
    requires NoDuplicates(ks) && i < |ks|
    ensures IndexOf(ks, ks[i]) == Some(i)
  {
    var k := IndexOf(ks, ks[i]);
    assert k.Some? && ks[k.value] == ks[i];
  }

  lemma DictFromPairsRepeat<V>(pairs: seq<(string, V)>, i: nat, value: V)
    requires NoDuplicates(Keys(pairs)) && i < |pairs|
    ensures DictFromPairs(pairs + [(pairs[i].0, value)]) == pairs[i := (pairs[i].0, value)]
  {
    DictFromPairsDistinct(pairs);
    IndexOfDistinct(Keys(pairs), i);
    DictFromPairsAppend(pairs, (pairs[i].0, value));
  }

  /** The effective alias table, in the order of its keys. */
  const Aliases: seq<(string, seq<string>)> := DictFromPairs(AliasLiteral)

  const MinutesColumn := "학습시간(분)"
  const HoursColumn := "학습시간"
  const MonthColumn := "월"
  const YearColumn := "연도"

  /** The duplicate 학습시간 entry: the table has 19 keys, 학습시간 stays in
      fourth place, and its aliases are the later list, the one that ends in
      학습시간(분). */
  lemma EffectiveAliases()
    ensures |Aliases| == 19
    ensures Aliases[3].0 == HoursColumn && Aliases[3].1 == AliasLiteral[19].1
    ensures MinutesColumn in Aliases[3].1
    ensures Aliases == AliasLiteral[..19][3 := AliasLiteral[19]]
  {
    AliasKeysDistinct();
    AliasLiteralRepeats();
    DictFromPairsRepeat(AliasLiteral[..19], 3, AliasLiteral[19].1);
  }

  /** The keys of the first 19 entries of the display, in two halves. */
  const FrontKeys: seq<string> := ["멤버사명", "연도", "월", "학습시간", "카테고리명", "학습자수", "학습카드명", "평균학습시간", "완료률"]
  const BackKeys: seq<string> := ["검색어", "검색횟수", "영역명", "이수인원", "인증인원", "도전중인원", "이수율", "개인ID", "BadgeID", "Badge명"]

  lemma FrontKeysDistinct()
    ensures NoDuplicates(FrontKeys)
  {
  }

  lemma BackKeysDistinct()
    ensures NoDuplicates(BackKeys)
  {
  }

  lemma KeysApart()
    ensures forall i, j :: 0 <= i < |FrontKeys| && 0 <= j < |BackKeys| ==> FrontKeys[i] != BackKeys[j]
  {
  }

  /** The first 19 entries of the display have distinct keys. */
  lemma AliasKeysDistinct()
    ensures NoDuplicates(Keys(AliasLiteral[..19]))
  {
    var ks := Keys(AliasLiteral[..19]);
    assert ks == FrontKeys + BackKeys;
    FrontKeysDistinct();
    BackKeysDistinct();
    KeysApart();
    NoDuplicatesConcat(FrontKeys, BackKeys);
  }

  /** The display's last entry repeats the key of its fourth. */
  lemma AliasLiteralRepeats()
    ensures |AliasLiteral| == 20
    ensures AliasLiteral == AliasLiteral[..19] + [(AliasLiteral[..19][3].0, AliasLiteral[19].1)]
  {
  }

  // ---------------------------------------------------------------------
  // normalize_columns

  /** The key `lower_existing` files a column under. */
  function LowerKey(col: string): string
  {
    Lower(Strip(col))
  }

  /** The keys of the columns, in column order. */
  function LowerKeys(cols: seq<string>): (keys: seq<string>)
    ensures |keys| == |cols|
  {
    if cols == [] then [] else [LowerKey(cols[0])] + LowerKeys(cols[1..])
  }

  /** `lower_existing`, with each key leading to the position of its column:
      every key is there, and when several columns share a key the last of
      them wins. */
  function KeyIndex(keys: seq<string>): (m: map<string, nat>)
    ensures forall i :: 0 <= i < |keys| ==> keys[i] in m
    ensures forall key :: key in m ==> m[key] < |keys| && keys[m[key]] == key
  {
    if keys == [] then map[]
    else
      var n := |keys| - 1;
      var front := keys[..n];
      assert forall i :: 0 <= i < n ==> front[i] == keys[i];
      KeyIndex(front)[keys[n] := n]
  }

  /** When several columns share a key, the last of them wins. */
  lemma {:induction false} KeyIndexLast(keys: seq<string>, key: string, j: nat)
    requires key in KeyIndex(keys) && KeyIndex(keys)[key] < j < |keys|
    ensures keys[j] != key
    decreases |keys|
  {
    var n := |keys| - 1;
    var front := keys[..n];
    if key != keys[n] && j < n {
      assert KeyIndex(keys)[key] == KeyIndex(front)[key];
      KeyIndexLast(front, key, j);
      assert front[j] == keys[j];
    }
  }

  function LowerExisting(cols: seq<string>): (m: map<string, nat>)
    ensures forall key :: key in m ==> m[key] < |cols|
  {
    KeyIndex(LowerKeys(cols))
  }

  /** An alias matches when it is a column name, or else when its lowercase
      form is the stripped, lowercased form of a column name. */
  predicate Matches(cols: seq<string>, alias: string)
  {
    alias in cols || Lower(alias) in LowerExisting(cols)
  }

  /** The column a matching alias renames: the alias itself on an exact
      match, the column found through `lower_existing` otherwise. */
  function Resolve(cols: seq<string>, alias: string): (src: string)
    requires Matches(cols, alias)
    ensures src in cols
  {
    if alias in cols then alias else cols[LowerExisting(cols)[Lower(alias)]]
  }

  /** The position of the first alias that matches, |aliases| when none
      does. */
  function FirstMatch(cols: seq<string>, aliases: seq<string>): (i: nat)
    ensures i <= |aliases|
    ensures forall j :: 0 <= j < i ==> !Matches(cols, aliases[j])
    ensures i < |aliases| ==> Matches(cols, aliases[i])
  {
    if aliases == [] then 0
    else if Matches(cols, aliases[0]) then 0
    else 1 + FirstMatch(cols, aliases[1..])
  }

  /** The column a standard name claims: the one its first matching alias
      resolves to. */
  function Claim(cols: seq<string>, aliases: seq<string>): (src: Option<string>)
    ensures src.None? <==> forall a :: a in aliases ==> !Matches(cols, a)
    ensures src.Some? ==> src.value in cols
  {
    var i := FirstMatch(cols, aliases);
    if i < |aliases| then Some(Resolve(cols, aliases[i])) else None
  }

  /** The column that entry (std, aliases) of the table renames: none when
      std is already a column or no alias matches. */
  function EntryClaim(cols: seq<string>, entry: (string, seq<string>)): (src: Option<string>)
    ensures src.Some? ==> src.value in cols && entry.0 !in cols
    ensures src.None? <==> entry.0 in cols || forall a :: a in entry.1 ==> !Matches(cols, a)
  {
    if entry.0 in cols then None else Claim(cols, entry.1)
  }

  /** The (standard name, claimed column) pairs of the table, in order. */
  function ClaimsOf(cols: seq<string>, table: seq<(string, seq<string>)>): (claims: seq<(string, Option<string>)>)
    ensures |claims| == |table|
    ensures forall k :: 0 <= k < |table| ==> claims[k] == (table[k].0, EntryClaim(cols, table[k]))
  {
    seq(|table|, k requires 0 <= k < |table| => (table[k].0, EntryClaim(cols, table[k])))
  }

  /** `col_map` filled from the claims in order. It is keyed by source
      column, so a later claim on the same column overwrites an earlier
      one. */
  function MapOfClaims(claims: seq<(string, Option<string>)>): (m: map<string, string>)
    ensures forall k :: 0 <= k < |claims| && claims[k].1.Some? ==> claims[k].1.value in m
  {
    if claims == [] then map[]
    else
      var n := |claims| - 1;
      var front := claims[..n];
      assert forall k :: 0 <= k < n ==> front[k] == claims[k];
      var m := MapOfClaims(front);
      match claims[n].1
      case None => m
      case Some(src) => m[src := claims[n].0]
  }

  /** Every mapped column was claimed, for the standard name it maps to:
      k is such a claim. */
  lemma {:induction false} MapOfClaimsSource(claims: seq<(string, Option<string>)>, src: string) returns (k: nat)
    requires src in MapOfClaims(claims)
    ensures k < |claims| && claims[k].1 == Some(src) && claims[k].0 == MapOfClaims(claims)[src]
    decreases |claims|
  {
    var n := |claims| - 1;
    var front := claims[..n];
    if claims[n].1 == Some(src) {
      k := n;
    } else {
      k := MapOfClaimsSource(front, src);
      assert front[k] == claims[k];
    }
  }

  /** One more entry: its claim, if any, is written over the map. */
  lemma ClaimsOfStep(cols: seq<string>, table: seq<(string, seq<string>)>, i: nat)
    requires i < |table|
    ensures MapOfClaims(ClaimsOf(cols, table[..i + 1])) ==
      match EntryClaim(cols, table[i])
      case None => MapOfClaims(ClaimsOf(cols, table[..i]))
      case Some(src) => MapOfClaims(ClaimsOf(cols, table[..i]))[src := table[i].0]
  {
    var claims := ClaimsOf(cols, table[..i + 1]);
    assert claims[..i] == ClaimsOf(cols, table[..i]);
    assert claims[i] == (table[i].0, EntryClaim(cols, table[i]));
  }

  /** A column claimed several times is renamed by the last claim. */
  lemma {:induction false} MapOfClaimsLastWins(claims: seq<(string, Option<string>)>, k: nat, src: string)
    requires k < |claims| && claims[k].1 == Some(src)
    requires forall l :: k < l < |claims| ==> claims[l].1 != Some(src)
    ensures src in MapOfClaims(claims) && MapOfClaims(claims)[src] == claims[k].0
    decreases |claims|
  {
    var n := |claims| - 1;
    if k < n {
      var front := claims[..n];
      assert front[k] == claims[k];
      forall l | k < l < n ensures front[l].1 != Some(src) {
        assert front[l] == claims[l];
      }
      MapOfClaimsLastWins(front, k, src);
    }
  }

  /** `col_map` after the entries `table`: every claimed column is mapped,
      and only existing columns, each to a standard name of the table that
      is not a column. */
  function ColumnMapOver(cols: seq<string>, table: seq<(string, seq<string>)>): (m: map<string, string>)
    ensures forall k :: 0 <= k < |table| && EntryClaim(cols, table[k]).Some? ==> EntryClaim(cols, table[k]).value in m
    ensures forall src :: src in m ==> src in cols && m[src] !in cols && m[src] in Keys(table)
  {
    var claims := ClaimsOf(cols, table);
    var m := MapOfClaims(claims);
    assert forall src :: src in m ==> src in cols && m[src] !in cols && m[src] in Keys(table) by {
      forall src | src in m ensures src in cols && m[src] !in cols && m[src] in Keys(table) {
        var k := MapOfClaimsSource(claims, src);
        assert Keys(table)[k] == table[k].0;
      }
    }
    m
  }

  /** A column claimed by several standard names is renamed to the last of
      them. */
  lemma ColumnMapOverLastWins(cols: seq<string>, table: seq<(string, seq<string>)>, k: nat, src: string)
    requires k < |table| && EntryClaim(cols, table[k]) == Some(src)
    requires forall l :: k < l < |table| ==> EntryClaim(cols, table[l]) != Some(src)
    ensures src in ColumnMapOver(cols, table) && ColumnMapOver(cols, table)[src] == table[k].0
  {
    MapOfClaimsLastWins(ClaimsOf(cols, table), k, src);
  }

  /** `col_map` for the header cols. */
  function ColumnMap(cols: seq<string>): map<string, string>
  {
    ColumnMapOver(cols, Aliases)
  }

  /** Only existing columns are renamed, and each to a standard name of the
      table that is not already a column. */
  lemma ColumnMapTargets(cols: seq<string>, src: string)
    requires src in ColumnMap(cols)
    ensures src in cols
    ensures ColumnMap(cols)[src] !in cols && ColumnMap(cols)[src] in Keys(Aliases)
  {
  }

  /** A standard name already present renames nothing to itself. */
  lemma PresentStandardSkipped(cols: seq<string>, std: string)
    requires std in cols
    ensures forall src :: src in ColumnMap(cols) ==> ColumnMap(cols)[src] != std
  {
  }

  /** The outer loop of normalize_columns that fills `col_map` from the
      alias table `table` (Aliases): standard names already present are
      skipped. */
  method BuildColumnMap(cols: seq<string>, table: seq<(string, seq<string>)>) returns (colMap: map<string, string>)
    ensures colMap == ColumnMapOver(cols, table)
  {
    var lowerExisting := LowerExisting(cols);
    colMap := map[];
    for i := 0 to |table|
      invariant colMap == MapOfClaims(ClaimsOf(cols, table[..i]))
    {
      ClaimsOfStep(cols, table, i);
      var std := table[i].0;
      if std in cols {
        continue;
      }
      var src := FindClaim(cols, lowerExisting, table[i].1);
      if src.Some? {
        colMap := colMap[src.value := std];
      }
    }
    assert table[..|table|] == table;
  }

  /** The first alias that matches decides the claim. */
  lemma {:induction false} FirstMatchAt(cols: seq<string>, aliases: seq<string>, j: nat)
    requires j <= |aliases|
    requires forall jj :: 0 <= jj < j ==> !Matches(cols, aliases[jj])
    requires j < |aliases| ==> Matches(cols, aliases[j])
    ensures FirstMatch(cols, aliases) == j
  {
    if j > 0 {
      var rest := aliases[1..];
      forall jj | 0 <= jj < j - 1 ensures !Matches(cols, rest[jj]) {
        assert rest[jj] == aliases[jj + 1];
      }
      assert j < |aliases| ==> rest[j - 1] == aliases[j];
      FirstMatchAt(cols, rest, j - 1);
    }
  }

  /** The inner loop: an exact match of the alias first, then its lowercase
      form; the first alias that matches ends the search. */
  method FindClaim(cols: seq<string>, lowerExisting: map<string, nat>, aliases: seq<string>) returns (src: Option<string>)
    requires lowerExisting == LowerExisting(cols)
    ensures src == Claim(cols, aliases)
  {
    var j := 0;
    while j < |aliases|
      invariant 0 <= j <= |aliases|
      invariant forall jj :: 0 <= jj < j ==> !Matches(cols, aliases[jj])
    {
      var alias := aliases[j];
      if alias in cols {
        FirstMatchAt(cols, aliases, j);
        return Some(alias);
      }
      var aliasLower := Lower(alias);
      if aliasLower in lowerExisting {
        FirstMatchAt(cols, aliases, j);
        return Some(cols[lowerExisting[aliasLower]]);
      }
      j := j + 1;
    }
    FirstMatchAt(cols, aliases, j);
    return None;
  }

  /** `df.rename(columns=col_map)` on the header: every column the map
      names takes its new name. */
  function RenameAll(cols: seq<string>, m: map<string, string>): (r: seq<string>)
    ensures |r| == |cols|
    ensures forall i :: 0 <= i < |cols| ==> r[i] == if cols[i] in m then m[cols[i]] else cols[i]
  {
    seq(|cols|, i requires 0 <= i < |cols| => if cols[i] in m then m[cols[i]] else cols[i])
  }

  /** `[str(c).strip() for c in df.columns]` */
  function StripAll(cols: seq<string>): (r: seq<string>)
    ensures |r| == |cols|
    ensures forall i :: 0 <= i < |cols| ==> r[i] == Strip(cols[i])
  {
    seq(|cols|, i requires 0 <= i < |cols| => Strip(cols[i]))
  }

  /** The header normalize_columns leaves on a non-empty table: as many
      names as before, each already stripped, a claimed column under its
      standard name and any other column under its own name, stripped. */
  function NormalizedColumns(cols: seq<string>): (r: seq<string>)
    ensures |r| == |cols|
    ensures forall i :: 0 <= i < |cols| ==> Strip(r[i]) == r[i]
    ensures forall i :: 0 <= i < |cols| && cols[i] !in ColumnMap(cols) ==> r[i] == Strip(cols[i])
    ensures forall i :: 0 <= i < |cols| && cols[i] in ColumnMap(cols) ==> r[i] == Strip(ColumnMap(cols)[cols[i]])
  {
    var r := StripAll(RenameAll(cols, ColumnMap(cols)));
    forall i | 0 <= i < |cols| ensures Strip(r[i]) == r[i] {
      StripIdempotent(RenameAll(cols, ColumnMap(cols))[i]);
    }
    r
  }

  /** normalize_columns on a DataFrame object. An empty table comes back
      as it is. When no alias applies, the names are stripped in place, so
      the caller's object changes too; otherwise `rename` makes a copy and
      the caller's object keeps its header. */
  method NormalizeColumns(df: Frame?) returns (r: Frame?)
    requires df != null ==> df.Valid()
    modifies df
    ensures df == null ==> r == null
    ensures df != null && IsEmpty(old(df.Snapshot())) ==> r == df && unchanged(df)
    ensures df != null && !IsEmpty(old(df.Snapshot())) ==>
      && r != null && r.Valid()
      && r.Snapshot() == Table(NormalizedColumns(old(df.columns)), old(df.rows))
      && (ColumnMap(old(df.columns)) == map[] ==> r == df)
      && (ColumnMap(old(df.columns)) != map[] ==> fresh(r) && unchanged(df))
  {
    r := NormalizeColumnsOver(df, Aliases);
  }

  /** The body of normalize_columns for the alias table `table`. */
  method NormalizeColumnsOver(df: Frame?, table: seq<(string, seq<string>)>) returns (r: Frame?)
    requires df != null ==> df.Valid()
    modifies df
    ensures df == null ==> r == null
    ensures df != null && IsEmpty(old(df.Snapshot())) ==> r == df && unchanged(df)
    ensures df != null && !IsEmpty(old(df.Snapshot())) ==>
      && r != null && r.Valid()
      && r.Snapshot() == Table(StripAll(RenameAll(old(df.columns), ColumnMapOver(old(df.columns), table))), old(df.rows))
      && (ColumnMapOver(old(df.columns), table) == map[] ==> r == df)
      && (ColumnMapOver(old(df.columns), table) != map[] ==> fresh(r) && unchanged(df))
  {
    if df == null || |df.rows| == 0 || |df.columns| == 0 {
      return df;
    }
    var colMap := BuildColumnMap(df.columns, table);
    r := df;
    if colMap != map[] {
      r := new Frame(Table(RenameAll(df.columns, colMap), df.rows));
    } else {
      assert RenameAll(df.columns, colMap) == df.columns;
    }
    r.SetColumns(StripAll(r.columns));
  }

  // ---------------------------------------------------------------------
  // validate_file_structure

  const EmptyFileMessage := "파일이 비어있습니다."
  const MissingColumnsMessage := "필수 컬럼이 누락되었습니다: "
  const ValidatedMessage := "검증 완료"

  /** The required columns absent from cols, in required order. */
  function MissingColumns(required: seq<string>, cols: seq<string>): (missing: seq<string>)
    ensures forall c :: c in missing <==> c in required && c !in cols
    ensures |missing| <= |required|
  {
    if required == [] then []
    else
      var n := |required| - 1;
      assert forall c :: c in required <==> c in required[..n] || c == required[n] by {
        assert required == required[..n] + [required[n]];
      }
      MissingColumns(required[..n], cols) + if required[n] in cols then [] else [required[n]]
  }

  /** `sep.join(items)` */
  function Join(items: seq<string>, sep: string): string
  {
    if items == [] then ""
    else if |items| == 1 then items[0]
    else Join(items[..|items| - 1], sep) + sep + items[|items| - 1]
  }

  /** validate_file_structure: fails on a missing or empty table, then
      normalises the header and fails when a required column is absent,
      listing the absent ones. */
  function ValidateFileStructure(df: Option<Table>, required: seq<string>): (r: (bool, string))
    ensures df.None? || IsEmpty(df.value) ==> r == (false, EmptyFileMessage)
    ensures df.Some? && !IsEmpty(df.value) ==>
      (r.0 <==> forall c :: c in required ==> c in NormalizedColumns(df.value.columns))
    ensures r.0 ==> r.1 == ValidatedMessage
    ensures df.Some? && !IsEmpty(df.value) && !r.0 ==>
      r.1 == MissingColumnsMessage + Join(MissingColumns(required, NormalizedColumns(df.value.columns)), ", ")
  {
    if df.None? || IsEmpty(df.value) then (false, EmptyFileMessage)
    else
      var cols := NormalizedColumns(df.value.columns);
      var missing := MissingColumns(required, cols);
      NothingMissing(required, cols);
      if missing != [] then (false, MissingColumnsMessage + Join(missing, ", "))
      else (true, ValidatedMessage)
  }

  lemma NothingMissing(required: seq<string>, cols: seq<string>)
    ensures MissingColumns(required, cols) == [] <==> forall c :: c in required ==> c in cols
  {
    var missing := MissingColumns(required, cols);
    if missing != [] {
      assert missing[0] in missing;
    }
  }

  // ---------------------------------------------------------------------
  // The transforms inside save_to_session

  /** `pd.to_numeric(errors='coerce').fillna(0)` on one cell. */
  function NumberOrZero(v: Value): real
  {
    match AsNumber(ToNumeric(v))
    case Some(x) => x
    case None => 0.0
  }

  /** The new 학습시간 column: every cell is hours, sixty times fewer than
      the minutes it held, a cell without a number counting as 0 minutes. */
  function MinutesToHours(col: seq<Value>): (r: seq<Value>)
    ensures |r| == |col|
    ensures forall i :: 0 <= i < |col| ==> r[i].Real? && r[i].r * 60.0 == NumberOrZero(col[i])
  {
    seq(|col|, i requires 0 <= i < |col| => Real(NumberOrZero(col[i]) / 60.0))
  }

  /** Minutes to hours: only when the table has 학습시간 and the header as
      loaded had 학습시간(분); every other column keeps its cells. */
  function ConvertMinutes(t: Table, original: seq<string>): (r: Table)
    requires WellFormed(t)
    ensures WellFormed(r) && r.columns == t.columns && |r.rows| == |t.rows|
    ensures !(HoursColumn in t.columns && MinutesColumn in original) ==> r == t
    ensures HoursColumn in t.columns && MinutesColumn in original ==>
      && Column(r, HoursColumn) == MinutesToHours(Column(t, HoursColumn))
      && forall i, k :: 0 <= i < |t.rows| && 0 <= k < |t.columns| && t.columns[k] != HoursColumn ==> r.rows[i][k] == t.rows[i][k]
  {
    if HoursColumn in t.columns && MinutesColumn in original then
      WithColumn(t, HoursColumn, MinutesToHours(Column(t, HoursColumn)))
    else t
  }

  /** `str(v)[-2:]` read back as a number: the last two digits, or the whole
      of a one-digit negative number. */
  function LastTwoDigits(v: int): (m: int)
    ensures -9 <= m <= 99
  {
    if v >= 0 then v % 100
    else if v > -10 then v
    else (-v) % 100
  }

  /** A yyyymm value becomes its month. */
  lemma YearMonthToMonth(year: nat, month: int)
    requires 1 <= month <= 12
    ensures LastTwoDigits(year * 100 + month) == month
  {
  }

  /** A value that already fits in two characters is left as it is. */
  lemma ShortValuesKept(v: int)
    requires -10 < v < 100
    ensures LastTwoDigits(v) == v
  {
  }

  /** The largest number among the cells, none when no cell holds one. */
  function MaxNumber(col: seq<Value>): (m: Option<real>)
    ensures m.None? <==> forall i :: 0 <= i < |col| ==> AsNumber(col[i]).None?
    ensures m.Some? ==> forall i :: 0 <= i < |col| && AsNumber(col[i]).Some? ==> AsNumber(col[i]).value <= m.value
    ensures m.Some? ==> exists i :: 0 <= i < |col| && AsNumber(col[i]) == m
  {
    if col == [] then None
    else
      var rest := MaxNumber(col[1..]);
      assert forall i :: 1 <= i < |col| ==> col[1..][i - 1] == col[i];
      match AsNumber(col[0])
      case None => rest
      case Some(x) =>
        if rest.None? || rest.value <= x then Some(x)
        else
          assert exists i :: 0 <= i < |col[1..]| && AsNumber(col[1..][i]) == rest;
          rest
  }

  /** `astype('Int64')` succeeds on the cell: it holds no number, or a whole
      one. */
  predicate Integral(v: Value)
  {
    match AsNumber(v)
    case Some(x) => x == x.Floor as real
    case None => true
  }

  /** The new 월 cell: the last two digits of a number, missing otherwise. */
  function MonthCell(v: Value): (r: Value)
    ensures r.Missing? || (r.Int? && -9 <= r.i <= 99)
  {
    match AsNumber(v)
    case Some(x) => Int(LastTwoDigits(x.Floor))
    case None => Missing
  }

  /** The yyyymm-to-month step applies when 월 exists, its largest number is
      above 12 and every number in it is whole; the integer cast of a
      fractional number raises, and the exception leaves the column as it
      was. */
  predicate MonthsApply(t: Table)
    requires WellFormed(t)
  {
    && MonthColumn in t.columns
    && var col := Column(t, MonthColumn);
       && MaxNumber(col).Some? && MaxNumber(col).value > 12.0
       && forall i :: 0 <= i < |col| ==> Integral(col[i])
  }

  function ConvertMonths(t: Table): (r: Table)
    requires WellFormed(t)
    ensures WellFormed(r) && r.columns == t.columns && |r.rows| == |t.rows|
    ensures !MonthsApply(t) ==> r == t
    ensures MonthsApply(t) ==>
      && (forall i :: 0 <= i < |t.rows| ==> Column(r, MonthColumn)[i] == MonthCell(Column(t, MonthColumn)[i]))
      && forall i, k :: 0 <= i < |t.rows| && 0 <= k < |t.columns| && t.columns[k] != MonthColumn ==> r.rows[i][k] == t.rows[i][k]
  {
    if MonthsApply(t) then
      var col := Column(t, MonthColumn);
      WithColumn(t, MonthColumn, seq(|col|, i requires 0 <= i < |col| => MonthCell(col[i])))
    else t
  }

  /** After the step every 월 cell is missing or a number of at most two
      digits, and a cell that held yyyymm holds mm. */
  lemma MonthsAfterConversion(t: Table, i: nat, year: nat, month: int)
    requires WellFormed(t) && MonthsApply(t) && i < |t.rows|
    ensures var c := Column(ConvertMonths(t), MonthColumn)[i];
            c.Missing? || (c.Int? && -9 <= c.i <= 99)
    ensures 1 <= month <= 12 && Column(t, MonthColumn)[i] == Int(year * 100 + month) ==>
            Column(ConvertMonths(t), MonthColumn)[i] == Int(month)
  {
    if 1 <= month <= 12 && Column(t, MonthColumn)[i] == Int(year * 100 + month) {
      YearMonthToMonth(year, month);
    }
  }

  /** Minutes to hours on the DataFrame object, in place. */
  method ConvertMinutesInPlace(df: Frame, original: seq<string>)
    requires df.Valid()
    modifies df
    ensures df.Valid() && df.Snapshot() == ConvertMinutes(old(df.Snapshot()), original)
  {
    if HoursColumn in df.columns && MinutesColumn in original {
      df.SetColumn(HoursColumn, MinutesToHours(Column(df.Snapshot(), HoursColumn)));
    }
  }

  /** yyyymm to month on the DataFrame object, in place. */
  method ConvertMonthsInPlace(df: Frame)
    requires df.Valid()
    modifies df
    ensures df.Valid() && df.Snapshot() == ConvertMonths(old(df.Snapshot()))
  {
    if MonthColumn in df.columns {
      var col := Column(df.Snapshot(), MonthColumn);
      var maxValue := MaxNumber(col);
      if maxValue.Some? && maxValue.value > 12.0 {
        var whole := forall i :: 0 <= i < |col| ==> Integral(col[i]);
        if whole {
          df.SetColumn(MonthColumn, seq(|col|, i requires 0 <= i < |col| => MonthCell(col[i])));
        }
      }
    }
  }

  // ---------------------------------------------------------------------
  // save_to_session

  /** The part of a FILE_TYPES entry the uploader reads. */
  datatype FileType = FileType(name: string, requiredColumns: seq<string>)

  const FileTypes: seq<(string, FileType)> := [
    ("annual_learning", FileType("1. 연간 학습시간", ["멤버사명", "연도", "학습시간"])),
    ("monthly_learning", FileType("2. 월별 학습시간", ["멤버사명", "연도", "월", "학습시간"])),
    ("category_learning", FileType("3. 카테고리별 학습시간", ["카테고리명", "학습시간"])),
    ("popular_cards", FileType("4. 인기학습카드", ["학습카드명", "학습자수"])),
    ("search_keywords", FileType("5. 검색어", ["검색어", "연도", "검색횟수"])),
    ("individual_raw", FileType("6. 개인별 학습시간 raw", ["개인ID", "학습시간"])),
    ("card_raw", FileType("7. 카드별 학습시간 raw", ["학습카드명"])),
    ("badge_raw", FileType("8. Badge별 학습시간 raw", ["Badge명"])),
    ("individual_full_raw", FileType("9. 개인별 학습 전체 raw", ["개인ID", "연도", "학습시간"]))
  ]

  /** One uploaded file: the table load_uploaded_file read (None when it
      failed) and its FILE_TYPES entry. */
  datatype Upload = Upload(loaded: Option<Table>, info: FileType)

  /** A value of `uploaded_data`: a DataFrame object, or the info stored
      under "<key>_info". */
  datatype Entry = Stored(frame: Frame) | Info(info: FileType)

  /** An entry with its DataFrame read at one moment. */
  datatype EntryView = StoredTable(table: Table) | StoredInfo(info: FileType)

  const InfoSuffix := "_info"

  /** The header a loaded table has after normalize_columns. */
  function Normalized(t: Table): Table
  {
    if IsEmpty(t) then t else Table(NormalizedColumns(t.columns), t.rows)
  }

  /** What save_to_session stores for a loaded table: nothing when the
      normalised table fails validation, otherwise the normalised table
      after the two transforms. */
  function Prepared(t: Table, info: FileType): (r: Option<Table>)
    requires WellFormed(t)
    ensures r.Some? <==> !IsEmpty(t) && ValidateFileStructure(Some(Normalized(t)), info.requiredColumns).0
    ensures r.Some? ==> WellFormed(r.value) && r.value.columns == NormalizedColumns(t.columns) && |r.value.rows| == |t.rows|
  {
    var norm := Normalized(t);
    if !ValidateFileStructure(Some(norm), info.requiredColumns).0 then None
    else Some(ConvertMonths(ConvertMinutes(norm, t.columns)))
  }

  /** What save_to_session makes of one file: its key, its info and the
      table it stores, none when the file did not load or did not
      validate. */
  datatype Saved = Saved(key: string, info: FileType, table: Option<Table>)

  function Outcome(key: string, upload: Upload): (s: Saved)
    requires upload.loaded.Some? ==> WellFormed(upload.loaded.value)
    ensures s.key == key && s.info == upload.info
    ensures s.table.Some? <==> upload.loaded.Some? && Prepared(upload.loaded.value, upload.info).Some?
  {
    Saved(key, upload.info, if upload.loaded.None? then None else Prepared(upload.loaded.value, upload.info))
  }

  function Outcomes(files: seq<(string, Upload)>): (r: seq<Saved>)
    requires forall f :: f in files && f.1.loaded.Some? ==> WellFormed(f.1.loaded.value)
    ensures |r| == |files| && forall i :: 0 <= i < |files| ==> r[i] == Outcome(files[i].0, files[i].1)
  {
    seq(|files|, i requires 0 <= i < |files| => Outcome(files[i].0, files[i].1))
  }

  /** `uploaded_data` after one more file: the table under its key and the
      info under "<key>_info" when the file was stored; unchanged
      otherwise. */
  function SavedStep(m: map<string, EntryView>, s: Saved): map<string, EntryView>
  {
    match s.table
    case None => m
    case Some(t) => m[s.key := StoredTable(t)][s.key + InfoSuffix := StoredInfo(s.info)]
  }

  /** `uploaded_data` after the files, in order. */
  function SavedView(m: map<string, EntryView>, saved: seq<Saved>): map<string, EntryView>
  {
    if saved == [] then m
    else SavedStep(SavedView(m, saved[..|saved| - 1]), saved[|saved| - 1])
  }

  /** After a sequence of saves a key holds the table of the last file
      stored under it, unless a later file writes its info over that key. */
  lemma {:induction false} SavedViewLastWins(m: map<string, EntryView>, saved: seq<Saved>, j: nat)
    requires j < |saved| && saved[j].table.Some?
    requires forall i :: j < i < |saved| && saved[i].table.Some? ==>
               saved[i].key != saved[j].key && saved[i].key + InfoSuffix != saved[j].key
    ensures saved[j].key in SavedView(m, saved)
    ensures SavedView(m, saved)[saved[j].key] == StoredTable(saved[j].table.value)
  {
    var n := |saved| - 1;
    if j < n {
      SavedViewLastWins(m, saved[..n], j);
    } else {
      assert |saved[j].key + InfoSuffix| > |saved[j].key|;
    }
  }

  /** A key no file is stored under, and no file's info lands on, keeps
      its entry. */
  lemma {:induction false} SavedViewKeepsUntouched(m: map<string, EntryView>, saved: seq<Saved>, k: string)
    requires forall i :: 0 <= i < |saved| && saved[i].table.Some? ==> saved[i].key != k && saved[i].key + InfoSuffix != k
    ensures k in SavedView(m, saved) <==> k in m
    ensures k in m ==> SavedView(m, saved)[k] == m[k]
  {
    if saved != [] {
      SavedViewKeepsUntouched(m, saved[..|saved| - 1], k);
    }
  }

  /** The DataFrame save_to_session would store for one loaded table: read
      into a new object, normalised, validated, then transformed in place;
      null when validation fails. */
  method PrepareFrame(t: Table, info: FileType) returns (df: Frame?)
    requires WellFormed(t)
    ensures df == null <==> Prepared(t, info).None?
    ensures df != null ==> fresh(df) && df.Valid() && df.Snapshot() == Prepared(t, info).value
  {
    var loaded := new Frame(t);
    var original := loaded.columns;
    df := NormalizeColumns(loaded);
    var verdict := ValidateFileStructure(Some(df.Snapshot()), info.requiredColumns);
    if !verdict.0 {
      return null;
    }
    ConvertMinutesInPlace(df, original);
    ConvertMonthsInPlace(df);
  }

  /** The DataFrame objects a store holds. */
  function FramesOf(m: map<string, Entry>): set<Frame>
  {
    set k | k in m && m[k].Stored? :: m[k].frame
  }

  /** A store with every DataFrame read now. */
  ghost function ViewOf(m: map<string, Entry>): (v: map<string, EntryView>)
    reads FramesOf(m)
    ensures v.Keys == m.Keys
  {
    map k | k in m :: if m[k].Stored? then StoredTable(m[k].frame.Snapshot()) else StoredInfo(m[k].info)
  }

  /** Storing a table and its info changes the view at those two keys only. */
  lemma ViewOfStore(m: map<string, Entry>, key: string, df: Frame, info: FileType)
    ensures ViewOf(m[key := Stored(df)][key + InfoSuffix := Info(info)])
         == ViewOf(m)[key := StoredTable(df.Snapshot())][key + InfoSuffix := StoredInfo(info)]
  {
    var m' := m[key := Stored(df)][key + InfoSuffix := Info(info)];
    var v := ViewOf(m');
    var want := ViewOf(m)[key := StoredTable(df.Snapshot())][key + InfoSuffix := StoredInfo(info)];
    forall k | k in want ensures v[k] == want[k] {
      if k != key && k != key + InfoSuffix {
        assert m'[k] == m[k];
      }
    }
  }

  /** Storing a valid DataFrame keeps every stored DataFrame valid. */
  lemma StoreKeepsValid(m: map<string, Entry>, key: string, df: Frame, info: FileType)
    requires forall f :: f in FramesOf(m) ==> f.Valid()
    requires df.Valid()
    ensures forall f :: f in FramesOf(m[key := Stored(df)][key + InfoSuffix := Info(info)]) ==> f.Valid()
  {
    assert FramesOf(m[key := Stored(df)][key + InfoSuffix := Info(info)]) <= FramesOf(m) + {df};
  }

  /** Streamlit's `st.session_state`, reduced to `uploaded_data`, which is
      absent until the first save. */
  class Session {
    var uploadedData: Option<map<string, Entry>>

    /** The DataFrame objects the store holds. */
    function Frames(): set<Frame>
      reads this
    {
      if uploadedData.None? then {} else FramesOf(uploadedData.value)
    }

    ghost predicate Valid()
      reads this, Frames()
    {
      forall f :: f in Frames() ==> f.Valid()
    }

    /** The store with every DataFrame read now. */
    ghost function View(): Option<map<string, EntryView>>
      reads this, Frames()
    {
      if uploadedData.None? then None else Some(ViewOf(uploadedData.value))
    }

    constructor ()
      ensures uploadedData.None?
    {
      uploadedData := None;
    }

    /** `uploaded_data[key] = df` and `uploaded_data[key + "_info"] = info`. */
    method Store(key: string, df: Frame, info: FileType)
      requires Valid() && uploadedData.Some? && df.Valid()
      modifies this
      ensures Valid() && uploadedData.Some?
      ensures View() == Some(old(View()).value[key := StoredTable(df.Snapshot())][key + InfoSuffix := StoredInfo(info)])
    {
      var entries := uploadedData.value;
      ViewOfStore(entries, key, df, info);
      StoreKeepsValid(entries, key, df, info);
      uploadedData := Some(entries[key := Stored(df)][key + InfoSuffix := Info(info)]);
    }

    /** Stores one uploaded file when it loads and validates. */
    method SaveOne(key: string, upload: Upload)
      requires Valid() && uploadedData.Some?
      requires upload.loaded.Some? ==> WellFormed(upload.loaded.value)
      modifies this
      ensures Valid() && uploadedData.Some?
      ensures View() == Some(SavedStep(old(View()).value, Outcome(key, upload)))
    {
      if upload.loaded.None? {
        return;
      }
      var entries := uploadedData.value;
      ghost var m := ViewOf(entries);
      var df := PrepareFrame(upload.loaded.value, upload.info);
      assert ViewOf(entries) == m;
      assert Valid();
      if df != null {
        Store(key, df, upload.info);
      }
    }

    /** save_to_session: creates `uploaded_data` when absent, then stores
        every file that loads and passes validation. */
    method SaveToSession(files: seq<(string, Upload)>)
      requires Valid()
      requires forall f :: f in files && f.1.loaded.Some? ==> WellFormed(f.1.loaded.value)
      modifies this
      ensures Valid()
      ensures View() == Some(SavedView(if old(View()).Some? then old(View()).value else map[], Outcomes(files)))
    {
      ghost var initial := if View().Some? then View().value else map[];
      if uploadedData.None? {
        uploadedData := Some(map[]);
      }
      for i := 0 to |files|
        invariant uploadedData.Some? && Valid()
        invariant View() == Some(SavedView(initial, Outcomes(files)[..i]))
      {
        assert Outcomes(files)[..i + 1][..i] == Outcomes(files)[..i];
        SaveOne(files[i].0, files[i].1);
      }
      assert Outcomes(files)[..|files|] == Outcomes(files);
    }
  }
}
