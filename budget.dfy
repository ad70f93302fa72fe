/** The budget phrase of the prompt (app.py lines 86-94): the form's budget
    code is looked up in a fixed six-entry table, and any other code, or no
    code at all, reads 指定なし. */
module Budget {
  import opened Wrappers

  /** What an unknown or missing code reads as. */
  const NotSpecified := "指定なし"

  /** `budget_map` */
  const BudgetTable: map<string, string> := map[
    "cheap" := "なるべく安く（〜2,000円）",
    "3000" := "3,000円以内",
    "5000" := "5,000円以内",
    "10000" := "10,000円以内",
    "luxury" := "リッチに（1万円以上）",
    "unspecified" := NotSpecified
  ]

  /** `budget_map.get(budget_val, "指定なし")`; `budget_val` is None when the
      form has no budget field. */
  function BudgetPhrase(code: Option<string>): (r: string)
    ensures r in BudgetTable.Values
    ensures code.Some? && code.value in BudgetTable ==> r == BudgetTable[code.value]
    ensures (code.None? || code.value !in BudgetTable) ==> r == NotSpecified
  {
    assert BudgetTable["unspecified"] == NotSpecified;
    if code.Some? && code.value in BudgetTable then BudgetTable[code.value] else NotSpecified
  }

  /** The six codes the form offers and nothing else. */
  lemma BudgetCodes()
    ensures BudgetTable.Keys == {"cheap", "3000", "5000", "10000", "luxury", "unspecified"}
  {
  }

  /** The phrase for each code the form offers. */
  lemma BudgetPhraseTable()
    ensures BudgetPhrase(Some("cheap")) == "なるべく安く（〜2,000円）"
    ensures BudgetPhrase(Some("3000")) == "3,000円以内"
    ensures BudgetPhrase(Some("5000")) == "5,000円以内"
    ensures BudgetPhrase(Some("10000")) == "10,000円以内"
    ensures BudgetPhrase(Some("luxury")) == "リッチに（1万円以上）"
    ensures BudgetPhrase(Some("unspecified")) == NotSpecified
  {
  }

  /** No two codes share a phrase, so the phrase tells which code was
      chosen. */
  lemma BudgetTableInjective(a: string, b: string)
    requires a in BudgetTable && b in BudgetTable && BudgetTable[a] == BudgetTable[b]
    ensures a == b
  {
  }

  /** The prompt reads 指定なし exactly when the code is missing, unknown, or
      `unspecified`. */
  lemma BudgetPhraseNotSpecified(code: Option<string>)
    ensures BudgetPhrase(code) == NotSpecified
            <==> code.None? || code.value !in BudgetTable || code.value == "unspecified"
  {
    if code.Some? && code.value in BudgetTable && BudgetPhrase(code) == NotSpecified {
      BudgetTableInjective(code.value, "unspecified");
    }
  }

  /** Codes are matched exactly: a different spelling falls back. */
  lemma BudgetPhraseExact()
    ensures BudgetPhrase(Some("Cheap")) == NotSpecified
    ensures BudgetPhrase(Some("3000 ")) == NotSpecified
    ensures BudgetPhrase(Some("")) == NotSpecified
    ensures BudgetPhrase(None) == NotSpecified
  {
  }
}
