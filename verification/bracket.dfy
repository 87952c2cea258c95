/** The registered-competitors grid: the category filter bar, the filtered
    list, its empty-state message and each card's avatar initial. */
module Bracket {
  import Seqs

  datatype Competitor = Competitor(id: string, name: string, school: string, category: string)

  /** The filter value that shows every competitor. */
  const All := "all"

  /** The filter bar, "all" first. */
  const FilterCategories: seq<string> := ["all", "Formas Tradicionales", "Formas Armas", "Combate por Puntos", "Tai Chi"]

  /** The competitors the grid is drawn from. */
  const MockCompetitors: seq<Competitor> := [
    Competitor("1", "Chen Wei", "Shaolin Temple", "Formas Tradicionales"),
    Competitor("2", "Yuki Tanaka", "Kyokushin Dojo", "Formas Tradicionales"),
    Competitor("3", "Maria Santos", "Wing Chun Academy", "Formas Armas"),
    Competitor("4", "Diego Rodriguez", "Taekwondo Elite", "Combate por Puntos"),
    Competitor("5", "Li Ming", "Wudang School", "Tai Chi"),
    Competitor("6", "Ana Gutierrez", "Karate Shotokan", "Formas Tradicionales")
  ]

  function InCategory(selected: string): Competitor -> bool {
    (c: Competitor) => c.category == selected
  }

  /** The competitors drawn for the selected filter: all of them for "all",
      otherwise exactly those of the selected category, in list order. */
  function Filtered(competitors: seq<Competitor>, selected: string): (shown: seq<Competitor>)
    ensures selected == All ==> shown == competitors
    ensures selected != All ==> forall i :: 0 <= i < |shown| ==> shown[i].category == selected
    ensures selected != All ==> forall c :: c in competitors && c.category == selected ==> c in shown
    ensures selected != All ==> forall c :: multiset(shown)[c] == if c.category == selected then multiset(competitors)[c] else 0
    ensures Seqs.IsSubsequence(shown, competitors)
  {
    if selected == All then
      Seqs.SubsequenceRefl(competitors);
      competitors
    else
      Seqs.FilterIsSubsequence(competitors, InCategory(selected));
      Seqs.FilterComplete(competitors, InCategory(selected));
      Seqs.FilterCounts(competitors, InCategory(selected));
      Seqs.Filter(competitors, InCategory(selected))
  }

  /** Applying the same filter to what is shown changes nothing. */
  lemma FilteredIdempotent(competitors: seq<Competitor>, selected: string)
    ensures Filtered(Filtered(competitors, selected), selected) == Filtered(competitors, selected)
  {
    if selected != All {
      Seqs.FilterIdempotent(competitors, InCategory(selected));
    }
  }

  /** "No hay competidores en esta categoría aún." is shown when the filtered list is empty. */
  predicate ShowsEmptyState(competitors: seq<Competitor>, selected: string) {
    |Filtered(competitors, selected)| == 0
  }

  /** The empty state appears exactly when there is nobody to show: no
      competitors at all under "all", none of the selected category otherwise. */
  lemma EmptyStateIff(competitors: seq<Competitor>, selected: string)
    ensures ShowsEmptyState(competitors, selected) <==>
              if selected == All then competitors == []
              else forall i :: 0 <= i < |competitors| ==> competitors[i].category != selected
  {
    if selected != All {
      Seqs.FilterEmptyIff(competitors, InCategory(selected));
    }
  }

  /** With the built-in competitor list, every filter shows somebody. */
  lemma MockNeverEmpty(selected: string)
    requires selected in FilterCategories
    ensures !ShowsEmptyState(MockCompetitors, selected)
  {
    if selected != All {
      var k := if selected == "Formas Tradicionales" then 0
               else if selected == "Formas Armas" then 2
               else if selected == "Combate por Puntos" then 3
               else 4;
      assert MockCompetitors[k].category == selected;
      EmptyStateIff(MockCompetitors, selected);
    }
  }

  /** The avatar letter: the first character of the name, or nothing for an
      empty name (`name.charAt(0)`). */
  function Initial(name: string): (letter: string)
    ensures |letter| <= 1
    ensures letter <= name
    ensures letter == "" <==> name == ""
    ensures letter + name[|letter|..] == name
  {
    if |name| == 0 then "" else [name[0]]
  }
}
