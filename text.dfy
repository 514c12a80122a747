/** String rules of the entry form and the timeline: the substring tests behind
    the colour of a timeline segment, `split(" ")`, and the episode name a
    template proposes. */
module Text {

  /** t occurs in s starting at index i. */
  predicate OccursAt(s: string, t: string, i: int)
  {
    0 <= i && i + |t| <= |s| && s[i..i + |t|] == t
  }

  /** Python's `t in s` on strings. */
  function Contains(s: string, t: string): bool
    decreases |s|
  {
    if |t| > |s| then false
    else if s[..|t|] == t then true
    else Contains(s[1..], t)
  }

  /** Contains holds exactly when the word occurs at some index of the text. */
  lemma {:induction false} ContainsOccurs(s: string, t: string)
    ensures Contains(s, t) <==> exists i :: OccursAt(s, t, i)
    decreases |s|
  {
    if |t| > |s| {
    } else if s[..|t|] == t {
      assert OccursAt(s, t, 0);
    } else {
      ContainsOccurs(s[1..], t);
      if Contains(s[1..], t) {
        var i :| OccursAt(s[1..], t, i);
        assert s[i + 1..i + 1 + |t|] == s[1..][i..i + |t|];
        assert OccursAt(s, t, i + 1);
      } else {
        forall i | OccursAt(s, t, i) ensures OccursAt(s[1..], t, i - 1) {
          assert i != 0;
          assert s[1..][i - 1..i - 1 + |t|] == s[i..i + |t|];
        }
      }
    }
  }

  /** A word whose first letter does not occur in s does not occur in s. */
  lemma FirstLetterAbsent(s: string, t: string)
    requires |t| > 0 && t[0] !in s
    ensures forall i :: !OccursAt(s, t, i)
  {
  }

  /** The colour classes of the timeline, named by their keys in the palette. */
  datatype Category = Personal | Work | Transit
  {
    function PaletteKey(): string
    {
      match this
      case Personal => "个人"
      case Work => "工作"
      case Transit => "交通"
    }
  }

  const WorkWord: string := "工作"
  const CommuteWord: string := "通勤"

  /** Colour rule of a timeline segment: "work" when the description or the
      episode mentions work, otherwise "transit" when the episode mentions
      commuting, otherwise "personal". */
  function CategoryOf(description: string, episode: string): Category
  {
    if Contains(description, WorkWord) || Contains(episode, WorkWord) then Work
    else if Contains(episode, CommuteWord) then Transit
    else Personal
  }

  /** The colour rule in terms of where the two words occur. */
  lemma CategoryRule(description: string, episode: string)
    ensures CategoryOf(description, episode) == Work <==>
      (exists i :: OccursAt(description, WorkWord, i)) || (exists i :: OccursAt(episode, WorkWord, i))
    ensures CategoryOf(description, episode) == Transit <==>
      (forall i :: !OccursAt(description, WorkWord, i)) && (forall i :: !OccursAt(episode, WorkWord, i))
      && (exists i :: OccursAt(episode, CommuteWord, i))
    ensures CategoryOf(description, episode) == Personal <==>
      (forall i :: !OccursAt(description, WorkWord, i)) && (forall i :: !OccursAt(episode, WorkWord, i))
      && (forall i :: !OccursAt(episode, CommuteWord, i))
  {
    ContainsOccurs(description, WorkWord);
    ContainsOccurs(episode, WorkWord);
    ContainsOccurs(episode, CommuteWord);
  }

  /** Python's `s.split(" ")`: the pieces between single spaces, empty pieces
      included; there is always at least one piece. */
  function Split(s: string): (parts: seq<string>)
    ensures |parts| >= 1
    decreases |s|
  {
    if s == [] then [[]]
    else
      var init := Split(s[..|s| - 1]);
      var c := s[|s| - 1];
      if c == ' ' then init + [[]]
      else init[..|init| - 1] + [init[|init| - 1] + [c]]
  }

  /** `" ".join(parts)`. */
  function Join(parts: seq<string>): (s: string)
    requires |parts| >= 1
    decreases |parts|
  {
    if |parts| == 1 then parts[0]
    else Join(parts[..|parts| - 1]) + " " + parts[|parts| - 1]
  }

  /** Split and Join are inverse: joining the pieces with single spaces gives
      back the string. */
  lemma {:induction false} JoinSplit(s: string)
    ensures Join(Split(s)) == s
    decreases |s|
  {
    if s != [] {
      var p, c := s[..|s| - 1], s[|s| - 1];
      var init := Split(p);
      JoinSplit(p);
      assert s == p + [c];
      if c == ' ' {
        assert (init + [[]])[..|init|] == init;
      } else if |init| > 1 {
        var parts := Split(s);
        assert parts[..|parts| - 1] == init[..|init| - 1];
      }
    }
  }

  /** No piece of a split contains the separator. */
  lemma {:induction false} SplitHasNoSpace(s: string)
    ensures forall k :: 0 <= k < |Split(s)| ==> ' ' !in Split(s)[k]
    decreases |s|
  {
    if s != [] {
      SplitHasNoSpace(s[..|s| - 1]);
    }
  }

  /** e is the part of s after its last space (all of s when it has none),
      provided e itself has no space. */
  predicate TailAfterSpace(s: string, e: string)
  {
    |e| <= |s| && e == s[|s| - |e|..] && (e == s || s[|s| - |e| - 1] == ' ')
  }

  lemma TailAfterSpaceExtend(p: string, e: string, c: char)
    requires TailAfterSpace(p, e) && c != ' '
    ensures TailAfterSpace(p + [c], e + [c])
  {
    var s := p + [c];
    assert s[|s| - |e| - 1..] == p[|p| - |e|..] + [c];
    if e != p {
      assert s[|s| - |e| - 2] == p[|p| - |e| - 1];
    }
  }

  /** The last piece of a split is the part after the last space. */
  lemma {:induction false} SplitLastSuffix(s: string)
    ensures TailAfterSpace(s, Split(s)[|Split(s)| - 1])
    decreases |s|
  {
    if s != [] {
      var p, c := s[..|s| - 1], s[|s| - 1];
      SplitLastSuffix(p);
      var init := Split(p);
      var prev := init[|init| - 1];
      assert s == p + [c];
      var parts := Split(s);
      if c == ' ' {
        assert parts == init + [[]];
        assert parts[|parts| - 1] == [];
        assert s[|s| - 1] == ' ';
      } else {
        assert parts == init[..|init| - 1] + [prev + [c]];
        assert parts[|parts| - 1] == prev + [c];
        TailAfterSpaceExtend(p, prev, c);
      }
    }
  }

  /** The episode a chosen template proposes: the last space-separated piece of
      the template's name, or "" when no template is chosen. */
  function TemplateEpisode(template: string): (e: string)
    ensures ' ' !in e
    ensures TailAfterSpace(template, e)
  {
    if template == [] then []
    else
      var parts := Split(template);
      SplitHasNoSpace(template);
      SplitLastSuffix(template);
      parts[|parts| - 1]
  }

  /** The episode proposed for a template named "<prefix> <word>" is the word. */
  lemma EpisodeAfterLastSpace(prefix: string, word: string)
    requires ' ' !in word
    ensures TemplateEpisode(prefix + " " + word) == word
  {
    var name := prefix + " " + word;
    var e := TemplateEpisode(name);
    assert name[|prefix|] == ' ';
    assert name[|name| - |word|..] == word;
  }

  /** The built-in templates: name -> (palette key, default location). */
  datatype Template = Template(category: string, location: string)

  const DefaultTemplates: map<string, Template> := map[
    "😴 睡觉" := Template("个人", "家"),
    "🚇 通勤" := Template("交通", "移动中"),
    "💻 工作" := Template("工作", "公司"),
    "🍱 吃饭" := Template("个人", "餐厅"),
    "📱 玩手机" := Template("个人", "家")
  ]

  /** The form's pre-filled values for a template chosen from the select box
      (or none, written ""): episode, location and description. */
  function FormDefaults(templates: map<string, Template>, selected: string): (d: (string, string, string))
    requires selected == [] || selected in templates
    ensures selected == [] ==> d == ([], [], [])
    ensures selected != [] ==>
      ' ' !in d.0 && TailAfterSpace(selected, d.0) && d.1 == templates[selected].location && d.2 == selected
  {
    if selected == [] then ([], [], [])
    else (TemplateEpisode(selected), templates[selected].location, selected)
  }

  /** A template whose name and word mention neither work nor commuting is
      coloured as personal. */
  lemma PersonalTemplate(prefix: string, word: string)
    requires ' ' !in word
    requires '工' !in prefix + " " + word && '通' !in word
    ensures CategoryOf(prefix + " " + word, word) == Personal
  {
    EpisodeAfterLastSpace(prefix, word);
    FirstLetterAbsent(prefix + " " + word, WorkWord);
    FirstLetterAbsent(word, WorkWord);
    FirstLetterAbsent(word, CommuteWord);
    CategoryRule(prefix + " " + word, word);
  }

  /** The colour of a template's segment, written as a palette key. */
  function TemplateColourKey(name: string): string
  {
    CategoryOf(name, TemplateEpisode(name)).PaletteKey()
  }

  lemma SleepColour()
    ensures TemplateColourKey("😴 睡觉") == DefaultTemplates["😴 睡觉"].category
  {
    assert "😴 睡觉" == "😴" + " " + "睡觉";
    PersonalTemplate("😴", "睡觉");
  }

  lemma CommuteColour()
    ensures TemplateColourKey("🚇 通勤") == DefaultTemplates["🚇 通勤"].category
  {
    assert "🚇 通勤" == "🚇" + " " + "通勤";
    EpisodeAfterLastSpace("🚇", "通勤");
    FirstLetterAbsent("🚇 通勤", WorkWord);
    FirstLetterAbsent("通勤", WorkWord);
    assert OccursAt("通勤", CommuteWord, 0);
    CategoryRule("🚇 通勤", "通勤");
  }

  lemma WorkColour()
    ensures TemplateColourKey("💻 工作") == DefaultTemplates["💻 工作"].category
  {
    assert OccursAt("💻 工作", WorkWord, 2);
    CategoryRule("💻 工作", TemplateEpisode("💻 工作"));
  }

  lemma MealColour()
    ensures TemplateColourKey("🍱 吃饭") == DefaultTemplates["🍱 吃饭"].category
  {
    assert "🍱 吃饭" == "🍱" + " " + "吃饭";
    PersonalTemplate("🍱", "吃饭");
  }

  lemma PhoneColour()
    ensures TemplateColourKey("📱 玩手机") == DefaultTemplates["📱 玩手机"].category
  {
    assert "📱 玩手机" == "📱" + " " + "玩手机";
    PersonalTemplate("📱", "玩手机");
  }

  /** The colour rule agrees with the stored category of every built-in
      template, when the episode is the one the template proposes. */
  lemma DefaultTemplateColours()
    ensures DefaultTemplates.Keys == {"😴 睡觉", "🚇 通勤", "💻 工作", "🍱 吃饭", "📱 玩手机"}
    ensures TemplateColourKey("😴 睡觉") == DefaultTemplates["😴 睡觉"].category
    ensures TemplateColourKey("🚇 通勤") == DefaultTemplates["🚇 通勤"].category
    ensures TemplateColourKey("💻 工作") == DefaultTemplates["💻 工作"].category
    ensures TemplateColourKey("🍱 吃饭") == DefaultTemplates["🍱 吃饭"].category
    ensures TemplateColourKey("📱 玩手机") == DefaultTemplates["📱 玩手机"].category
  {
    SleepColour();
    CommuteColour();
    WorkColour();
    MealColour();
    PhoneColour();
  }
}
