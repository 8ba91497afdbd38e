/** The shared record and enumeration types of the catalogue
    (src/types/index.ts). */
module Types {
  import opened Common

  /** The eight trick families. */
  datatype Category = Oozara | Kozara | Chuzara | Toudai | Hikouki | Tomeken | Kaiten | Itowaza

  /** The literal each category is written as. */
  function CategoryName(c: Category): string {
    match c
    case Oozara => "大皿系"
    case Kozara => "小皿系"
    case Chuzara => "中皿系"
    case Toudai => "灯台系"
    case Hikouki => "飛行機系"
    case Tomeken => "とめけん系"
    case Kaiten => "回転系"
    case Itowaza => "糸技系"
  }

  /** The position of a category in the union type's listing. */
  function CategoryPosition(c: Category): (i: nat)
    ensures i < 8
  {
    match c
    case Oozara => 0
    case Kozara => 1
    case Chuzara => 2
    case Toudai => 3
    case Hikouki => 4
    case Tomeken => 5
    case Kaiten => 6
    case Itowaza => 7
  }

  lemma ListsEveryCategory(r: seq<Category>)
    requires r == [Oozara, Kozara, Chuzara, Toudai, Hikouki, Tomeken, Kaiten, Itowaza]
    ensures forall c: Category :: r[CategoryPosition(c)] == c
    ensures forall c: Category :: c in r
  {
    forall c: Category ensures r[CategoryPosition(c)] == c && c in r {
      match c
      case Oozara =>
      case Kozara =>
      case Chuzara =>
      case Toudai =>
      case Hikouki =>
      case Tomeken =>
      case Kaiten =>
      case Itowaza =>
    }
  }

  /** Every category once, in the order the union type lists them. */
  function AllCategories(): (r: seq<Category>)
    ensures |r| == 8
    ensures forall c: Category :: r[CategoryPosition(c)] == c
    ensures forall c: Category :: c in r
    ensures forall i, j :: 0 <= i < j < |r| ==> r[i] != r[j]
  {
    var r := [Oozara, Kozara, Chuzara, Toudai, Hikouki, Tomeken, Kaiten, Itowaza];
    ListsEveryCategory(r);
    r
  }

  /** Reading a category literal: defined exactly on the eight names. */
  function ParseCategory(s: string): (r: Option<Category>)
    ensures r.Some? ==> CategoryName(r.value) == s
    ensures r.None? ==> forall c: Category :: CategoryName(c) != s
  {
    if s == "大皿系" then Some(Oozara)
    else if s == "小皿系" then Some(Kozara)
    else if s == "中皿系" then Some(Chuzara)
    else if s == "灯台系" then Some(Toudai)
    else if s == "飛行機系" then Some(Hikouki)
    else if s == "とめけん系" then Some(Tomeken)
    else if s == "回転系" then Some(Kaiten)
    else if s == "糸技系" then Some(Itowaza)
    else None
  }

  /** Naming a category and reading the name back gives the category,
      so no two categories share a name. */
  lemma CategoryNameRoundTrip(c: Category)
    ensures ParseCategory(CategoryName(c)) == Some(c)
  {
  }

  /** A difficulty is one of the levels 1..5. */
  type DifficultyLevel = d: int | 1 <= d <= 5 witness 1

  /** Where a video is hosted. */
  datatype VideoType = YouTube | Instagram | TikTok | Upload

  function VideoTypeName(v: VideoType): string {
    match v
    case YouTube => "youtube"
    case Instagram => "instagram"
    case TikTok => "tiktok"
    case Upload => "upload"
  }

  function ParseVideoType(s: string): (r: Option<VideoType>)
    ensures r.Some? ==> VideoTypeName(r.value) == s
    ensures r.None? ==> forall v: VideoType :: VideoTypeName(v) != s
  {
    if s == "youtube" then Some(YouTube)
    else if s == "instagram" then Some(Instagram)
    else if s == "tiktok" then Some(TikTok)
    else if s == "upload" then Some(Upload)
    else None
  }

  /** How a user signed up. */
  datatype Provider = Google | Email

  function ProviderName(p: Provider): string {
    match p
    case Google => "google"
    case Email => "email"
  }

  function ParseProvider(s: string): (r: Option<Provider>)
    ensures r.Some? ==> ProviderName(r.value) == s
    ensures r.None? ==> forall p: Provider :: ProviderName(p) != s
  {
    if s == "google" then Some(Google)
    else if s == "email" then Some(Email)
    else None
  }

  datatype Video = Video(
    id: string,
    trickId: string,
    userId: string,
    username: string,
    userAvatar: string,
    videoUrl: string,
    videoType: VideoType,
    thumbnailUrl: string,
    comment: Option<string>,
    views: int,
    likes: int,
    createdAt: string)

  datatype Trick = Trick(
    id: string,
    slug: string,
    nameJa: string,
    nameEn: string,
    category: Category,
    subcategory: string,
    difficulty: DifficultyLevel,
    difficultyLabel: string,
    attribute: string,
    thumbnailUrl: string,
    iconUrl: string,
    tags: seq<string>,
    videos: seq<Video>,
    createdAt: string)

  datatype User = User(
    id: string,
    email: string,
    username: string,
    avatar: string,
    provider: Provider,
    createdAt: string)

  /** A category tab either shows every trick or one family. */
  datatype CategoryFilter = AllTricks | Only(category: Category)

  datatype CategoryTab = CategoryTab(text: string, value: CategoryFilter)

  /** The tab that shows one category. */
  function TabPosition(c: Category): (i: nat)
    ensures 1 <= i < 9
  {
    match c
    case Oozara => 1
    case Kozara => 2
    case Chuzara => 3
    case Hikouki => 4
    case Toudai => 5
    case Tomeken => 6
    case Kaiten => 7
    case Itowaza => 8
  }

  lemma TabsCoverEveryCategory(r: seq<CategoryTab>)
    requires |r| == 9
    requires r[1].value == Only(Oozara) && r[2].value == Only(Kozara) && r[3].value == Only(Chuzara)
    requires r[4].value == Only(Hikouki) && r[5].value == Only(Toudai) && r[6].value == Only(Tomeken)
    requires r[7].value == Only(Kaiten) && r[8].value == Only(Itowaza)
    ensures forall c: Category :: r[TabPosition(c)].value == Only(c)
  {
    forall c: Category ensures r[TabPosition(c)].value == Only(c) {
      match c
      case Oozara =>
      case Kozara =>
      case Chuzara =>
      case Toudai =>
      case Hikouki =>
      case Tomeken =>
      case Kaiten =>
      case Itowaza =>
    }
  }

  /** The category tabs: "all" first, then every category exactly once. */
  function Categories(): (r: seq<CategoryTab>)
    ensures |r| == 9
    ensures r[0].value == AllTricks
    ensures forall c: Category :: r[TabPosition(c)].value == Only(c)
    ensures forall i, j :: 0 <= i < j < |r| ==> r[i].value != r[j].value
  {
    var r := [ CategoryTab("すべて", AllTricks),
      CategoryTab("大皿", Only(Oozara)),
      CategoryTab("小皿", Only(Kozara)),
      CategoryTab("中皿", Only(Chuzara)),
      CategoryTab("飛行機", Only(Hikouki)),
      CategoryTab("灯台", Only(Toudai)),
      CategoryTab("とめけん", Only(Tomeken)),
      CategoryTab("回転", Only(Kaiten)),
      CategoryTab("糸技", Only(Itowaza)) ];
    TabsCoverEveryCategory(r);
    r
  }

  /** The four difficulty labels that have a colour style. */
  function DifficultyColors(): (m: map<string, string>)
    ensures m.Keys == {"初級", "中級", "上級", "達人"}
  {
    map[
      "初級" := "bg-green-100 text-green-800",
      "中級" := "bg-yellow-100 text-yellow-800",
      "上級" := "bg-orange-100 text-orange-800",
      "達人" := "bg-red-100 text-red-800"]
  }
}
