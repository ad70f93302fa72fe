/** The prompt the result handler sends to the chat model (app.py lines
    107-160): a fixed f-string whose replacement fields are filled with the
    shaped form values and with the fixed route block.  The f-string is
    modelled as its literal pieces and its replacement fields, in order, so
    that what the prompt contains follows from the template. */
module Prompt {
  import opened Wrappers
  import opened Text
  import opened Schedule
  import opened Budget
  import opened Fields
  import opened Reply

  /** The form values the handler reads.  A scalar field is None when the
      form does not send it; a list field is empty then. */
  datatype Form = Form(
    place: Option<string>, numPeople: Option<string>, partner: Option<string>,
    meal: Option<string>, mealGenre: Option<string>,
    attributeOther: Option<string>, purposeOther: Option<string>,
    dateTime: Option<string>, budget: Option<string>,
    stations: seq<string>, attributes: seq<string>, purposes: seq<string>,
    access: seq<string>, vibes: seq<string>, mobilities: seq<string>, ng: seq<string>)

  /** How an f-string renders an optional form value: None reads "None",
      so the prompt cannot tell a missing field from one typed as "None". */
  function Show(o: Option<string>): (r: string)
    ensures r == "None" <==> o == None || o == Some("None")
  {
    if o.Some? then o.value else "None"
  }

  /** The strings the handler substitutes into the prompt: the form values
      shaped by lines 77-104 and the route block. */
  datatype Shaped = Shaped(
    place: string, schedule: string, budget: string, numPeople: string, partner: string,
    stations: string, attributes: string, purposes: string, access: string, mobility: string,
    vibes: string, meal: string, mealGenre: string, ng: string, route: string)

  /** The fixed route-card instructions (lines 107-120), always substituted. */
  const RouteInstruction: string :=
    "\n"
    + "    【集合場所へのルート表示】\n"
    + "    メンバーそれぞれの出発駅が異なるため、以下のHTML構造を使って表示してください。\n"
    + "    人数（駅数）分だけ <div class=\"route-card\"> を繰り返して作成してください。\n"
    + "    \n"
    + "    <div class=\"route-container\">\n"
    + "        <div class=\"route-card\">\n"
    + "            <h4>メンバー（最寄駅名）</h4>\n"
    + "            <p>ここにルート、所要時間、運賃を記載</p>\n"
    + "        </div>\n"
    + "        </div>\n"
    + "    \n"
    + "    ※その下に、全員が合流する「集合場所」と「集合時間」を明記してください。\n"
    + "    "


  /** The search link form the model is told to use. */
  const MapsSearchUrl := "https://www.google.com/maps/search/?api=1&query=スポット名+エリア名"

  /** Lines 77-104: every replacement field's value, from the form. */
  function Shape(f: Form): Shaped
  {
    Shaped(
      Show(f.place), FormatSchedule(f.dateTime), BudgetPhrase(f.budget), Show(f.numPeople), Show(f.partner),
      StationsLine(f.stations), WithOther(f.attributes, f.attributeOther), WithOther(f.purposes, f.purposeOther),
      Listed(f.access), Listed(f.mobilities), Listed(f.vibes), Show(f.meal), Show(f.mealGenre), Listed(f.ng),
      RouteInstruction)
  }

  /** The replacement fields of the template. */
  datatype Slot = Place | ScheduleSlot | BudgetSlot | NumPeople | Partner | Stations
                | Attributes | Purposes | Access | Mobility | Vibes | Meal | MealGenre | Ng | Route

  /** A piece of an f-string: literal text or a replacement field. */
  datatype Piece = Lit(text: string) | Hole(slot: Slot)

  function SlotValue(v: Shaped, s: Slot): string {
    match s
    case Place => v.place
    case ScheduleSlot => v.schedule
    case BudgetSlot => v.budget
    case NumPeople => v.numPeople
    case Partner => v.partner
    case Stations => v.stations
    case Attributes => v.attributes
    case Purposes => v.purposes
    case Access => v.access
    case Mobility => v.mobility
    case Vibes => v.vibes
    case Meal => v.meal
    case MealGenre => v.mealGenre
    case Ng => v.ng
    case Route => v.route
  }

  function PieceText(p: Piece, v: Shaped): string {
    match p
    case Lit(s) => s
    case Hole(s) => SlotValue(v, s)
  }

  /** The f-string evaluated: its pieces, each rendered, one after another. */
  function Fill(t: seq<Piece>, v: Shaped): string
    decreases |t|
  {
    if t == [] then "" else PieceText(t[0], v) + Fill(t[1..], v)
  }

  /** The opening request (lines 123-125). */
  const Opening: seq<Piece> := [
    Lit("\n"),
    Lit("    あなたはプロのトラベルプランナーです。以下の条件で最高のお出かけプランを作成してください。\n"),
    Lit("\n")
  ]

  /** 【基本情報】 (lines 126-133). */
  const BasicInfo: seq<Piece> := [
    Lit("    【基本情報】\n"),
    Lit("    - 目的地: "), Hole(Place), Lit("\n"),
    Lit("    - 予定日時: "), Hole(ScheduleSlot), Lit("\n"),
    Lit("    - 予算(1人あたり): "), Hole(BudgetSlot), Lit("\n"),
    Lit("    - 人数: "), Hole(NumPeople), Lit("人\n"),
    Lit("    - 同行者: "), Hole(Partner), Lit("\n"),
    Lit("    - メンバー最寄駅リスト: "), Hole(Stations), Lit("\n"),
    Lit("\n")
  ]

  /** 【条件・こだわり】 (lines 134-141). */
  const Conditions: seq<Piece> := [
    Lit("    【条件・こだわり】\n"),
    Lit("    - 属性: "), Hole(Attributes), Lit("\n"),
    Lit("    - 用途: "), Hole(Purposes), Lit("\n"),
    Lit("    - 交通手段: "), Hole(Access), Lit("\n"),
    Lit("    - 移動のこだわり: "), Hole(Mobility), Lit("\n"),
    Lit("    - 雰囲気: "), Hole(Vibes), Lit("\n"),
    Lit("    - 食事: "), Hole(Meal), Lit(" (ジャンル: "), Hole(MealGenre), Lit(")\n"),
    Lit("\n")
  ]

  /** 【NG条件】 (lines 142-144). */
  const NgConditions: seq<Piece> := [
    Lit("    【NG条件】\n"),
    Lit("    - "), Hole(Ng), Lit("\n"),
    Lit("\n")
  ]

  /** The rules for choosing places (lines 145-149). */
  const SelectionRules: seq<Piece> := [
    Lit("    【重要：店舗・スポットの選定ルール】\n"),
    Lit("    1. **必ず「実在する店舗・場所」のみ**を提案してください。架空の店名は禁止です。\n"),
    Lit("    2. 提案する全てのスポット（集合場所、観光地、飲食店など）について、**Googleマップの検索用URL**を埋め込んでください。\n"),
    Lit("    3. URLの形式は `"), Lit(MapsSearchUrl), Lit("` を使用してください。\n"),
    Lit("\n")
  ]

  /** The output structure, with the route block and the start time (lines 150-160). */
  const OutputFormat: seq<Piece> := [
    Lit("    【出力形式の指示】\n"),
    Lit("    HTML形式で出力してください（<html>タグは不要）。\n"),
    Lit("    <div>タグで囲み、以下の構成にしてください。\n"),
    Lit("\n"),
    Lit("    1. プラン全体のタイトル (<h3>)\n"),
    Lit("    2. "), Hole(Route), Lit("\n"),
    Lit("    3. タイムスケジュール (<ul><li>)\n"),
    Lit("       - ※開始時間は "), Hole(ScheduleSlot), Lit(" の時間を基準にする。\n"),
    Lit("       - ※各スポット名の横に <a href=\"GoogleマップURL\" target=\"_blank\" style=\"color:#007bff; text-decoration:none; margin-left:5px;\">[地図]</a> を配置する。\n"),
    Lit("    4. 各スポットのおすすめポイントと選定理由 (<p>)\n"),
    Lit("    ")
  ]

  /** The prompt f-string (lines 123-160), section by section. */
  const PromptTemplate: seq<Piece> :=
    Opening + BasicInfo + Conditions + NgConditions + SelectionRules + OutputFormat

  /** The prompt the handler builds from a form. */
  function BuildPrompt(f: Form): string {
    Fill(PromptTemplate, Shape(f))
  }

  // ---------------------------------------------------------------------
  // Filling a template
  // ---------------------------------------------------------------------

  lemma {:induction false} FillAppend(a: seq<Piece>, b: seq<Piece>, v: Shaped)
    ensures Fill(a + b, v) == Fill(a, v) + Fill(b, v)
    decreases |a|
  {
    if a == [] {
      assert a + b == b;
    } else {
      assert (a + b)[1..] == a[1..] + b;
      FillAppend(a[1..], b, v);
    }
  }

  /** The pieces `i` to `j` of a template are rendered, together, right
      after the rendering of the pieces before them. */
  lemma FillSegment(t: seq<Piece>, v: Shaped, i: int, j: int)
    requires 0 <= i <= j <= |t|
    ensures OccursAt(Fill(t, v), Fill(t[i..j], v), |Fill(t[..i], v)|)
  {
    assert t == t[..i] + t[i..j] + t[j..];
    FillAppend(t[..i] + t[i..j], t[j..], v);
    FillAppend(t[..i], t[i..j], v);
    var x, y, z := Fill(t[..i], v), Fill(t[i..j], v), Fill(t[j..], v);
    assert (x + y + z)[|x|..|x| + |y|] == y;
  }

  /** Three consecutive pieces, text, field, text, are rendered together. */
  lemma LineAt(t: seq<Piece>, v: Shaped, i: int, x: string, s: Slot, y: string) returns (pos: nat)
    requires 0 <= i && i + 3 <= |t| && t[i] == Lit(x) && t[i + 1] == Hole(s) && t[i + 2] == Lit(y)
    ensures OccursAt(Fill(t, v), x + SlotValue(v, s) + y, pos)
  {
    FillSegment(t, v, i, i + 3);
    var seg := t[i..i + 3];
    assert seg[0] == t[i] && seg[1..][0] == t[i + 1] && seg[1..][1..][0] == t[i + 2];
    assert seg[1..][1..][1..] == [];
    assert Fill(seg[1..][1..], v) == y + "";
    assert Fill(seg[1..], v) == SlotValue(v, s) + (y + "");
    assert Fill(seg, v) == x + (SlotValue(v, s) + (y + ""));
    pos := |Fill(t[..i], v)|;
  }

  /** An occurrence in one part of a concatenation, shifted. */
  lemma OccursShift(a: string, b: string, c: string, x: string, pos: int)
    requires OccursAt(b, x, pos)
    ensures OccursAt(a + b + c, x, |a| + pos)
  {
    assert (a + b + c)[|a| + pos..|a| + pos + |x|] == b[pos..pos + |x|];
  }

  /** The prompt is its six sections, one after another. */
  lemma Sections(v: Shaped)
    ensures Fill(PromptTemplate, v)
            == Fill(Opening, v) + Fill(BasicInfo, v) + Fill(Conditions, v)
               + Fill(NgConditions, v) + Fill(SelectionRules, v) + Fill(OutputFormat, v)
  {
    var a, b, c, d, e, g := Opening, BasicInfo, Conditions, NgConditions, SelectionRules, OutputFormat;
    FillAppend(a + b + c + d + e, g, v);
    FillAppend(a + b + c + d, e, v);
    FillAppend(a + b + c, d, v);
    FillAppend(a + b, c, v);
    FillAppend(a, b, v);
  }

  /** An occurrence in the second of six parts. */
  lemma OccursInSecond(a: string, b: string, c: string, d: string, e: string, g: string, x: string, pos: int)
    requires OccursAt(b, x, pos)
    ensures OccursAt(a + b + c + d + e + g, x, |a| + pos)
  {
    OccursShift(a, b, c + d + e + g, x, pos);
    assert a + b + c + d + e + g == a + b + (c + d + e + g);
  }

  /** An occurrence in the last of six parts. */
  lemma OccursInLast(a: string, b: string, c: string, d: string, e: string, g: string, x: string, pos: int)
    requires OccursAt(g, x, pos)
    ensures OccursAt(a + b + c + d + e + g, x, |a| + |b| + |c| + |d| + |e| + pos)
  {
    OccursShift(a + b + c + d + e, g, "", x, pos);
    assert a + b + c + d + e + g + "" == a + b + c + d + e + g;
  }

  /** An occurrence in the basic information is one in the prompt. */
  lemma InBasicInfo(v: Shaped, x: string, pos: int)
    requires OccursAt(Fill(BasicInfo, v), x, pos)
    ensures OccursAt(Fill(PromptTemplate, v), x, |Fill(Opening, v)| + pos)
  {
    Sections(v);
    OccursInSecond(Fill(Opening, v), Fill(BasicInfo, v), Fill(Conditions, v),
                   Fill(NgConditions, v), Fill(SelectionRules, v), Fill(OutputFormat, v), x, pos);
  }

  /** An occurrence in the output structure is one in the prompt, after
      the four sections before it. */
  lemma InOutputFormat(v: Shaped, x: string, pos: int)
    requires OccursAt(Fill(OutputFormat, v), x, pos)
    ensures OccursAt(Fill(PromptTemplate, v), x, |Fill(Opening, v)| + |Fill(BasicInfo, v)| + |Fill(Conditions, v)|
                                                 + |Fill(NgConditions, v)| + |Fill(SelectionRules, v)| + pos)
  {
    Sections(v);
    OccursInLast(Fill(Opening, v), Fill(BasicInfo, v), Fill(Conditions, v),
                 Fill(NgConditions, v), Fill(SelectionRules, v), Fill(OutputFormat, v), x, pos);
  }

  /** Every piece of a template is rendered at the place its predecessors
      end. */
  lemma FillHasPiece(t: seq<Piece>, v: Shaped, i: int)
    requires 0 <= i < |t|
    ensures OccursAt(Fill(t, v), PieceText(t[i], v), |Fill(t[..i], v)|)
  {
    FillSegment(t, v, i, i + 1);
    assert t[i..i + 1] == [t[i]];
    FillOne(t[i], v);
  }

  /** A single piece renders as itself. */
  lemma FillOne(p: Piece, v: Shaped)
    ensures Fill([p], v) == PieceText(p, v)
  {
    assert [p][1..] == [];
    assert PieceText(p, v) + "" == PieceText(p, v);
  }

  // ---------------------------------------------------------------------
  // What the template puts in, whatever the values
  // ---------------------------------------------------------------------

  /** No section is ever left out: every literal piece and every filled
      field of the template is in the text, in template order. */
  lemma TemplateHasEveryPiece(v: Shaped, i: int)
    requires 0 <= i < |PromptTemplate|
    ensures OccursAt(Fill(PromptTemplate, v), PieceText(PromptTemplate[i], v), |Fill(PromptTemplate[..i], v)|)
  {
    FillHasPiece(PromptTemplate, v, i);
  }

  /** The route value is item 2 of the output structure. */
  lemma TemplateHasRoute(v: Shaped)
    ensures Contains(Fill(PromptTemplate, v), "    2. " + v.route + "\n")
  {
    var pos := LineAt(OutputFormat, v, 5, "    2. ", Route, "\n");
    InOutputFormat(v, "    2. " + v.route + "\n", pos);
  }

  /** The schedule line of the basic information. */
  lemma ScheduleRow(v: Shaped) returns (pos: nat)
    ensures OccursAt(Fill(BasicInfo, v), "    - 予定日時: " + v.schedule + "\n", pos)
  {
    pos := LineAt(BasicInfo, v, 4, "    - 予定日時: ", ScheduleSlot, "\n");
  }

  /** The start-time instruction of the time table. */
  lemma AnchorRow(v: Shaped) returns (pos: nat)
    ensures OccursAt(Fill(OutputFormat, v), "       - ※開始時間は " + v.schedule + " の時間を基準にする。\n", pos)
  {
    pos := LineAt(OutputFormat, v, 9, "       - ※開始時間は ", ScheduleSlot, " の時間を基準にする。\n");
  }

  lemma PlaceRow(v: Shaped) returns (pos: nat)
    ensures OccursAt(Fill(BasicInfo, v), "    - 目的地: " + v.place + "\n", pos)
  {
    pos := LineAt(BasicInfo, v, 1, "    - 目的地: ", Place, "\n");
  }

  lemma BudgetRow(v: Shaped) returns (pos: nat)
    ensures OccursAt(Fill(BasicInfo, v), "    - 予算(1人あたり): " + v.budget + "\n", pos)
  {
    pos := LineAt(BasicInfo, v, 7, "    - 予算(1人あたり): ", BudgetSlot, "\n");
  }

  lemma StationsRow(v: Shaped) returns (pos: nat)
    ensures OccursAt(Fill(BasicInfo, v), "    - メンバー最寄駅リスト: " + v.stations + "\n", pos)
  {
    pos := LineAt(BasicInfo, v, 16, "    - メンバー最寄駅リスト: ", Stations, "\n");
  }

  /** The schedule value fills the schedule line of the basic information. */
  lemma TemplateHasSchedule(v: Shaped)
    ensures Contains(Fill(PromptTemplate, v), "    - 予定日時: " + v.schedule + "\n")
  {
    var i := ScheduleRow(v);
    InBasicInfo(v, "    - 予定日時: " + v.schedule + "\n", i);
  }

  /** The schedule value fills, again, the start time of the time table. */
  lemma TemplateHasStartTime(v: Shaped)
    ensures Contains(Fill(PromptTemplate, v), "       - ※開始時間は " + v.schedule + " の時間を基準にする。\n")
  {
    var j := AnchorRow(v);
    InOutputFormat(v, "       - ※開始時間は " + v.schedule + " の時間を基準にする。\n", j);
  }

  /** The Google Maps search link form is always there. */
  lemma TemplateHasMapsUrl(v: Shaped)
    ensures Contains(Fill(PromptTemplate, v), MapsSearchUrl)
  {
    var k := |Opening + BasicInfo + Conditions + NgConditions| + 4;
    assert PromptTemplate[k] == SelectionRules[4] == Lit(MapsSearchUrl);
    TemplateHasEveryPiece(v, k);
  }

  /** The destination line of the basic information. */
  lemma TemplateHasPlace(v: Shaped)
    ensures Contains(Fill(PromptTemplate, v), "    - 目的地: " + v.place + "\n")
  {
    var i := PlaceRow(v);
    InBasicInfo(v, "    - 目的地: " + v.place + "\n", i);
  }

  /** The budget line of the basic information. */
  lemma TemplateHasBudget(v: Shaped)
    ensures Contains(Fill(PromptTemplate, v), "    - 予算(1人あたり): " + v.budget + "\n")
  {
    var i := BudgetRow(v);
    InBasicInfo(v, "    - 予算(1人あたり): " + v.budget + "\n", i);
  }

  /** The stations line of the basic information. */
  lemma TemplateHasStations(v: Shaped)
    ensures Contains(Fill(PromptTemplate, v), "    - メンバー最寄駅リスト: " + v.stations + "\n")
  {
    var i := StationsRow(v);
    InBasicInfo(v, "    - メンバー最寄駅リスト: " + v.stations + "\n", i);
  }

  // ---------------------------------------------------------------------
  // What every prompt contains
  // ---------------------------------------------------------------------

  /** The route-card block is in every prompt, as item 2 of the output
      structure, whether or not any station was entered. */
  lemma PromptHasRoute(f: Form)
    ensures Contains(BuildPrompt(f), "    2. " + RouteInstruction + "\n")
  {
    TemplateHasRoute(Shape(f));
  }

  /** The formatted schedule is in the basic information and again as the
      anchor of the time table. */
  lemma PromptHasSchedule(f: Form)
    ensures Contains(BuildPrompt(f), "    - 予定日時: " + FormatSchedule(f.dateTime) + "\n")
    ensures Contains(BuildPrompt(f), "       - ※開始時間は " + FormatSchedule(f.dateTime) + " の時間を基準にする。\n")
  {
    TemplateHasSchedule(Shape(f));
    TemplateHasStartTime(Shape(f));
  }

  /** The Google Maps search link form is in every prompt. */
  lemma PromptHasMapsUrl(f: Form)
    ensures Contains(BuildPrompt(f), MapsSearchUrl)
  {
    TemplateHasMapsUrl(Shape(f));
  }

  /** The stations line and the budget line carry the shaped values. */
  lemma PromptHasStationsAndBudget(f: Form)
    ensures Contains(BuildPrompt(f), "    - メンバー最寄駅リスト: " + StationsLine(f.stations) + "\n")
    ensures Contains(BuildPrompt(f), "    - 予算(1人あたり): " + BudgetPhrase(f.budget) + "\n")
  {
    TemplateHasStations(Shape(f));
    TemplateHasBudget(Shape(f));
  }

  /** A form without a destination still asks the chat model, for a trip
      to "None": the value is not checked before the call. */
  lemma PromptMissingPlace(f: Form)
    requires f.place.None?
    ensures Contains(BuildPrompt(f), "    - 目的地: " + "None" + "\n")
  {
    TemplateHasPlace(Shape(f));
  }

  /** Whatever the model answers, the history row of a form without a
      destination is refused, so no plan is stored or shown: the page is
      an apology. */
  lemma MissingPlaceApology(f: Form, reply: ChatReply, dbError: Option<string>, nullError: string)
    requires f.place.None?
    ensures StoredPlan(reply, CommitError(f.place, dbError, nullError)) == None
    ensures exists e :: ShownPlan(reply, CommitError(f.place, dbError, nullError)) == ErrorPage(e)
  {
    MissingDestinationApology(reply, dbError, nullError);
  }

  // ---------------------------------------------------------------------
  // What the prompt does not depend on
  // ---------------------------------------------------------------------

  /** Blank station rows of the form change nothing. */
  lemma PromptIgnoresBlankStations(f: Form, blanks: nat)
    ensures BuildPrompt(f.(stations := f.stations + seq(blanks, _ => ""))) == BuildPrompt(f)
  {
    var g := f.(stations := f.stations + seq(blanks, _ => ""));
    NonEmptyAppend(f.stations, seq(blanks, _ => ""));
    NonEmptyNone(seq(blanks, _ => ""));
    assert NonEmpty(seq(blanks, _ => "")) == [];
    assert NonEmpty(g.stations) == NonEmpty(f.stations) + [];
    assert NonEmpty(g.stations) == NonEmpty(f.stations);
    assert Shape(g) == Shape(f);
  }

  /** An empty date field and a missing one give the same prompt. */
  lemma PromptEmptyDate(f: Form)
    ensures BuildPrompt(f.(dateTime := Some(""))) == BuildPrompt(f.(dateTime := None))
  {
    assert Shape(f.(dateTime := Some(""))) == Shape(f.(dateTime := None));
  }
}
