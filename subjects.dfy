/**
 * The subject drop-down: the list of subject labels offered for the chosen
 * course (src/App.js:10-12, 87-89), and the option value each item gets,
 * `item.toLowerCase().replace(' ', '-')` (src/App.js:136).
 */
module Subjects {
  import Strings

  const TechnicalReportWriting := "technical-report-writing"
  const EnglishLiterature := "english-literature"
  const ComputerSciences := "computer-sciences"

  const ReportWritingSubjects: seq<string> := ["Short Reports", "Annual Reports", "Presentations"]
  const LiteratureSubjects: seq<string> := ["Poetry", "Short Stories", "Drama"]
  const ComputerScienceSubjects: seq<string> :=
    ["Web Development", "Desktop Software Development", "Research and Analysis"]

  predicate IsKnownCourse(course: string)
  {
    course == TechnicalReportWriting || course == EnglishLiterature || course == ComputerSciences
  }

  /**
   * The labels offered for `course`. Any value other than the three course
   * values (the empty string included) offers nothing.
   */
  function SubjectOptions(course: string): (r: seq<string>)
    ensures IsKnownCourse(course) <==> r != []
    ensures r != [] ==> |r| == 3
  {
    if course == TechnicalReportWriting then ReportWritingSubjects
    else if course == EnglishLiterature then LiteratureSubjects
    else if course == ComputerSciences then ComputerScienceSubjects
    else []
  }

  /** The labels of each course, in the order the drop-down lists them. */
  lemma SubjectOptionsExactly(course: string)
    ensures course == TechnicalReportWriting ==>
      SubjectOptions(course) == ["Short Reports", "Annual Reports", "Presentations"]
    ensures course == EnglishLiterature ==>
      SubjectOptions(course) == ["Poetry", "Short Stories", "Drama"]
    ensures course == ComputerSciences ==>
      SubjectOptions(course) == ["Web Development", "Desktop Software Development", "Research and Analysis"]
    ensures !IsKnownCourse(course) ==> SubjectOptions(course) == []
  {
  }

  /** The option value of a label. */
  function Slug(item: string): (r: string)
    ensures |r| == |item|
  {
    Strings.ReplaceFirst(Strings.ToLower(item), ' ', '-')
  }

  /**
   * Character by character, the slug is the lower-cased label except at the
   * label's first space, which becomes '-'; later spaces stay spaces.
   */
  lemma SlugAt(item: string)
    ensures forall k :: 0 <= k < |item| ==>
      Slug(item)[k] == (if item[k] == ' ' && ' ' !in item[..k] then '-' else Strings.LowerChar(item[k]))
  {
    var lower := Strings.ToLower(item);
    Strings.ReplaceFirstAt(lower, ' ', '-');
    forall k | 0 <= k <= |item| ensures ' ' in lower[..k] <==> ' ' in item[..k] {
      if ' ' in lower[..k] {
        var m :| 0 <= m < k && lower[m] == ' ';
        assert item[..k][m] == ' ';
      }
      if ' ' in item[..k] {
        var m :| 0 <= m < k && item[m] == ' ';
        assert lower[..k][m] == ' ';
      }
    }
  }

  /** A label of two or more words: the first space becomes '-', the rest is only lower-cased. */
  lemma SlugOfWords(first: string, rest: string)
    requires ' ' !in first
    ensures Slug(first + " " + rest) == Strings.ToLower(first) + "-" + Strings.ToLower(rest)
  {
    var lf, lr := Strings.ToLower(first), Strings.ToLower(rest);
    assert Strings.ToLower(first + " " + rest) == lf + [' '] + lr;
    Strings.ReplaceFirstAfter(lf, ' ', '-', lr);
  }

  /**
   * The option values of the drop-down for `course`, in label order. The
   * length clause follows from the next one and `Slug`'s contract; it is kept
   * so that callers get the lengths without unfolding `Slug`.
   */
  function OptionValues(course: string): (r: seq<string>)
    ensures |r| == |SubjectOptions(course)|
    ensures forall i :: 0 <= i < |r| ==> |r[i]| == |SubjectOptions(course)[i]|
    ensures forall i :: 0 <= i < |r| ==> r[i] == Slug(SubjectOptions(course)[i])
  {
    Slugs(SubjectOptions(course))
  }

  /** The slug of each label, position by position (lengths kept as for `OptionValues`). */
  function Slugs(items: seq<string>): (r: seq<string>)
    ensures |r| == |items|
    ensures forall i :: 0 <= i < |r| ==> |r[i]| == |items[i]|
    ensures forall i :: 0 <= i < |r| ==> r[i] == Slug(items[i])
  {
    seq(|items|, i requires 0 <= i < |items| => Slug(items[i]))
  }

  /**
   * The option values of every course, as the drop-down renders them. Labels
   * with two spaces keep their second space: 'Desktop Software Development'
   * becomes 'desktop-software development'.
   */
  lemma OptionValuesExactly()
    ensures OptionValues(TechnicalReportWriting) == ["short-reports", "annual-reports", "presentations"]
    ensures OptionValues(EnglishLiterature) == ["poetry", "short-stories", "drama"]
    ensures OptionValues(ComputerSciences) ==
      ["web-development", "desktop-software development", "research-and analysis"]
    ensures forall course :: !IsKnownCourse(course) ==> OptionValues(course) == []
  {
    OptionValuesOfReportWriting();
    OptionValuesOfLiterature();
    OptionValuesOfComputerSciences();
  }

  lemma SlugsOfThree(a: string, b: string, c: string, sa: string, sb: string, sc: string)
    requires Slug(a) == sa && Slug(b) == sb && Slug(c) == sc
    ensures Slugs([a, b, c]) == [sa, sb, sc]
  {
  }

  lemma OptionValuesOfReportWriting()
    ensures OptionValues(TechnicalReportWriting) == ["short-reports", "annual-reports", "presentations"]
  {
    SlugShortReports();
    SlugAnnualReports();
    SlugPresentations();
    SlugsOfThree("Short Reports", "Annual Reports", "Presentations",
      "short-reports", "annual-reports", "presentations");
  }

  lemma OptionValuesOfLiterature()
    ensures OptionValues(EnglishLiterature) == ["poetry", "short-stories", "drama"]
  {
    SlugPoetry();
    SlugShortStories();
    SlugDrama();
    SlugsOfThree("Poetry", "Short Stories", "Drama",
      "poetry", "short-stories", "drama");
  }

  lemma OptionValuesOfComputerSciences()
    ensures OptionValues(ComputerSciences) ==
      ["web-development", "desktop-software development", "research-and analysis"]
  {
    SlugWebDevelopment();
    SlugDesktopSoftwareDevelopment();
    SlugResearchAndAnalysis();
    SlugsOfThree("Web Development", "Desktop Software Development", "Research and Analysis",
      "web-development", "desktop-software development", "research-and analysis");
  }

  /**
   * Every option value is non-empty, so it differs from the value "" of the
   * "Choose subject" placeholder, and no two options of a course share a value.
   */
  lemma OptionValuesDistinct(course: string)
    ensures forall i :: 0 <= i < |OptionValues(course)| ==> OptionValues(course)[i] != ""
    ensures forall i, j :: 0 <= i < j < |OptionValues(course)| ==>
      OptionValues(course)[i] != OptionValues(course)[j]
  {
    if course == TechnicalReportWriting {
      OptionValuesOfReportWriting();
    } else if course == EnglishLiterature {
      OptionValuesOfLiterature();
    } else if course == ComputerSciences {
      OptionValuesOfComputerSciences();
    }
  }

  // Evaluating the slugs of the fixed labels, one word at a time. These lemmas
  // are evaluation steps, not properties: each literal is split into small
  // facts so that the solver stays within its resource budget.

  lemma SlugOfOneWord(item: string, lower: string)
    requires Strings.ToLower(item) == lower && ' ' !in lower
    ensures Slug(item) == lower
  {
  }

  lemma SlugOfTwo(item: string, first: string, rest: string, lf: string, lr: string, r: string)
    requires item == first + " " + rest && ' ' !in first
    requires Strings.ToLower(first) == lf && Strings.ToLower(rest) == lr && r == lf + "-" + lr
    ensures Slug(item) == r
  {
    SlugOfWords(first, rest);
  }

  lemma SlugShortReports() ensures Slug("Short Reports") == "short-reports"
  {
    WordsShortReports();
    SlugOfTwo("Short Reports", "Short", "Reports", "short", "reports", "short-reports");
  }

  lemma WordsShortReports()
    ensures "Short Reports" == "Short" + " " + "Reports"
    ensures "short-reports" == "short" + "-" + "reports"
    ensures Strings.ToLower("Short") == "short"
    ensures Strings.ToLower("Reports") == "reports"
  {
  }

  lemma SlugAnnualReports() ensures Slug("Annual Reports") == "annual-reports"
  {
    WordsAnnualReports();
    SlugOfTwo("Annual Reports", "Annual", "Reports", "annual", "reports", "annual-reports");
  }

  lemma WordsAnnualReports()
    ensures "Annual Reports" == "Annual" + " " + "Reports"
    ensures "annual-reports" == "annual" + "-" + "reports"
    ensures Strings.ToLower("Annual") == "annual"
    ensures Strings.ToLower("Reports") == "reports"
  {
  }

  lemma SlugPresentations() ensures Slug("Presentations") == "presentations"
  {
    assert Strings.ToLower("Presentations") == "presentations";
    SlugOfOneWord("Presentations", "presentations");
  }

  lemma SlugPoetry() ensures Slug("Poetry") == "poetry"
  {
    assert Strings.ToLower("Poetry") == "poetry";
    SlugOfOneWord("Poetry", "poetry");
  }

  lemma SlugShortStories() ensures Slug("Short Stories") == "short-stories"
  {
    WordsShortStories();
    SlugOfTwo("Short Stories", "Short", "Stories", "short", "stories", "short-stories");
  }

  lemma WordsShortStories()
    ensures "Short Stories" == "Short" + " " + "Stories"
    ensures "short-stories" == "short" + "-" + "stories"
    ensures Strings.ToLower("Short") == "short"
    ensures Strings.ToLower("Stories") == "stories"
  {
  }

  lemma SlugDrama() ensures Slug("Drama") == "drama"
  {
    assert Strings.ToLower("Drama") == "drama";
    SlugOfOneWord("Drama", "drama");
  }

  lemma SlugWebDevelopment() ensures Slug("Web Development") == "web-development"
  {
    WordsWebDevelopment();
    SlugOfTwo("Web Development", "Web", "Development", "web", "development", "web-development");
  }

  lemma WordsWebDevelopment()
    ensures "Web Development" == "Web" + " " + "Development"
    ensures "web-development" == "web" + "-" + "development"
    ensures Strings.ToLower("Web") == "web"
    ensures Strings.ToLower("Development") == "development"
  {
  }

  lemma SlugDesktopSoftwareDevelopment() ensures Slug("Desktop Software Development") == "desktop-software development"
  {
    WordsDesktopSoftwareDevelopment();
    LowerDesktopSoftwareDevelopment();
    SlugOfTwo("Desktop Software Development", "Desktop", "Software Development", "desktop", "software development", "desktop-software development");
  }

  lemma WordsDesktopSoftwareDevelopment()
    ensures "Desktop Software Development" == "Desktop" + " " + "Software Development"
    ensures "desktop-software development" == "desktop" + "-" + "software development"
  {
  }

  lemma LowerDesktopSoftwareDevelopment()
    ensures Strings.ToLower("Desktop") == "desktop"
    ensures Strings.ToLower("Software Development") == "software development"
  {
    WordsSoftwareDevelopment();
    LowerJoin("Software", "Development", "software", "development");
  }

  lemma WordsSoftwareDevelopment()
    ensures "Software Development" == "Software" + " " + "Development"
    ensures "software development" == "software" + " " + "development"
    ensures Strings.ToLower("Software") == "software"
    ensures Strings.ToLower("Development") == "development"
  {
  }

  lemma LowerJoin(a: string, b: string, la: string, lb: string)
    requires Strings.ToLower(a) == la && Strings.ToLower(b) == lb
    ensures Strings.ToLower(a + " " + b) == la + " " + lb
  {
    Strings.ToLowerConcat(a, " " + b);
    Strings.ToLowerConcat(" ", b);
    assert a + " " + b == a + (" " + b);
  }

  lemma SlugResearchAndAnalysis() ensures Slug("Research and Analysis") == "research-and analysis"
  {
    WordsResearchAndAnalysis();
    SlugOfTwo("Research and Analysis", "Research", "and Analysis", "research", "and analysis", "research-and analysis");
  }

  lemma WordsResearchAndAnalysis()
    ensures "Research and Analysis" == "Research" + " " + "and Analysis"
    ensures "research-and analysis" == "research" + "-" + "and analysis"
    ensures Strings.ToLower("Research") == "research"
    ensures Strings.ToLower("and Analysis") == "and analysis"
  {
  }
}
