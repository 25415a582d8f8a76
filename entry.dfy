/** What `saveEntry` writes: the journal folder, the two file names built from
    the date, and the text of the `.doc` file. Only the strings are modelled;
    creating the folder and writing the files are not. */
module Entry {

  datatype Option<T> = None | Some(value: T)

  /** The folder every entry is saved in, relative to the working directory. */
  const FOLDER: string := "PersonalJournal"

  /** The three fields of a journal text, in the order they are written. */
  datatype Fields = Fields(date: string, mood: string, note: string)

  /** What one save produces: the text file's name and contents and the drawing's file name. */
  datatype SavedEntry = SavedEntry(docName: string, text: string, imageName: string)

  // ---------------------------------------------------------------------------
  // File names

  /** `date.replace("/", "-")`: every slash becomes a dash, nothing else moves. */
  function DashedDate(date: string): (r: string)
    ensures |r| == |date|
    ensures forall i :: 0 <= i < |date| ==> r[i] == (if date[i] == '/' then '-' else date[i])
  {
    if date == [] then [] else [if date[0] == '/' then '-' else date[0]] + DashedDate(date[1..])
  }

  /** No slash survives the replacement. */
  lemma DashedDateHasNoSlash(date: string)
    ensures '/' !in DashedDate(date)
  {
    var r := DashedDate(date);
    forall i | 0 <= i < |r| ensures r[i] != '/' {
      assert r[i] == (if date[i] == '/' then '-' else date[i]);
    }
  }

  /** Dates written without dashes, such as `MM/dd/yyyy`, keep apart after the replacement. */
  lemma DashedDateInjective(a: string, b: string)
    requires '-' !in a && '-' !in b
    requires DashedDate(a) == DashedDate(b)
    ensures a == b
  {
    var ra, rb := DashedDate(a), DashedDate(b);
    forall i | 0 <= i < |a| ensures a[i] == b[i] {
      assert ra[i] == rb[i];
      assert a[i] in a && b[i] in b;
    }
  }

  /** A date as `DateTimeFormatter.ofPattern("MM/dd/yyyy")` writes one for a
      four-digit year: two digits, a slash, two digits, a slash, four digits. */
  predicate IsFormattedDate(d: string) {
    && |d| == 10 && d[2] == '/' && d[5] == '/'
    && forall i :: 0 <= i < 10 && i != 2 && i != 5 ==> '0' <= d[i] <= '9'
  }

  /** A formatted date is one line without dashes, and its dashed form is `MM-dd-yyyy`. */
  lemma FormattedDateShape(d: string)
    requires IsFormattedDate(d)
    ensures '\n' !in d && '-' !in d
    ensures DashedDate(d) == d[..2] + "-" + d[3..5] + "-" + d[6..]
  {
    forall i | 0 <= i < |d| ensures d[i] != '\n' && d[i] != '-' {
      if i != 2 && i != 5 {
        assert '0' <= d[i] <= '9';
      }
    }
    var r := DashedDate(d);
    var e := d[..2] + "-" + d[3..5] + "-" + d[6..];
    forall i | 0 <= i < 10 ensures r[i] == e[i] {
      if i != 2 && i != 5 {
        assert '0' <= d[i] <= '9';
      }
    }
  }

  /** `folder + File.separator + prefix + date.replace("/", "-") + ext`. */
  function FileName(separator: string, prefix: string, date: string, ext: string): (r: string)
    ensures |r| == |FOLDER| + |separator| + |prefix| + |date| + |ext|
    ensures r[..|FOLDER| + |separator|] == FOLDER + separator
  {
    var r := FOLDER + separator + prefix + DashedDate(date) + ext;
    assert r[..|FOLDER| + |separator|] == FOLDER + separator;
    r
  }

  /** The name of the text file, `PersonalJournal<sep>MoodJournal_<dashed date>.doc`:
      the folder, then a base name holding no slash that ends in `.doc`. */
  function DocName(separator: string, date: string): (r: string)
    ensures |r| == |FOLDER| + |separator| + |date| + 16
    ensures r[..|FOLDER| + |separator|] == FOLDER + separator
    ensures r[|FOLDER| + |separator|..] == "MoodJournal_" + DashedDate(date) + ".doc"
    ensures '/' !in r[|FOLDER| + |separator|..] && r[|r| - 4..] == ".doc"
  {
    FileNameIsInFolder(separator, "MoodJournal_", date, ".doc");
    FileName(separator, "MoodJournal_", date, ".doc")
  }

  /** The name of the drawing, `PersonalJournal<sep>MoodDrawing_<dashed date>.png`:
      the folder, then a base name holding no slash that ends in `.png`. */
  function ImageName(separator: string, date: string): (r: string)
    ensures |r| == |FOLDER| + |separator| + |date| + 16
    ensures r[..|FOLDER| + |separator|] == FOLDER + separator
    ensures r[|FOLDER| + |separator|..] == "MoodDrawing_" + DashedDate(date) + ".png"
    ensures '/' !in r[|FOLDER| + |separator|..] && r[|r| - 4..] == ".png"
  {
    FileNameIsInFolder(separator, "MoodDrawing_", date, ".png");
    FileName(separator, "MoodDrawing_", date, ".png")
  }

  /** A file name is the folder, the separator, then a base name with the
      given prefix and extension that holds no slash: the date cannot place a
      file in a sub-folder. */
  lemma FileNameIsInFolder(separator: string, prefix: string, date: string, ext: string)
    requires '/' !in prefix && '/' !in ext
    ensures var name := FileName(separator, prefix, date, ext);
      var base := name[|FOLDER| + |separator|..];
      && base == prefix + DashedDate(date) + ext
      && '/' !in base
  {
    var name := FileName(separator, prefix, date, ext);
    var base := name[|FOLDER| + |separator|..];
    var dashed := DashedDate(date);
    assert name == (FOLDER + separator) + (prefix + dashed + ext);
    assert base == prefix + dashed + ext;
    DashedDateHasNoSlash(date);
    forall i | 0 <= i < |base| ensures base[i] != '/' {
      if i < |prefix| {
        assert base[i] == prefix[i];
      } else if i < |prefix| + |dashed| {
        assert base[i] == dashed[i - |prefix|];
      } else {
        assert base[i] == ext[i - |prefix| - |dashed|];
      }
    }
  }

  /** The text file and the drawing of the same day never share a name. */
  lemma DocAndImageNamesDiffer(separator: string, date: string)
    ensures DocName(separator, date) != ImageName(separator, date)
  {
    var k := |FOLDER| + |separator| + 4;
    assert DocName(separator, date)[k] == 'J';
    assert ImageName(separator, date)[k] == 'D';
  }

  /** Two days written without dashes give two different files of each kind,
      and one day always gives the same file: a second save that day
      overwrites the first. */
  lemma FileNameIdentifiesDay(separator: string, prefix: string, ext: string, a: string, b: string)
    requires '-' !in a && '-' !in b
    ensures FileName(separator, prefix, a, ext) == FileName(separator, prefix, b, ext) <==> a == b
  {
    var na, nb := FileName(separator, prefix, a, ext), FileName(separator, prefix, b, ext);
    if na == nb {
      var k := |FOLDER| + |separator| + |prefix|;
      assert |a| == |b|;
      assert na == FOLDER + separator + prefix + DashedDate(a) + ext;
      assert nb == FOLDER + separator + prefix + DashedDate(b) + ext;
      assert na[k..k + |a|] == DashedDate(a);
      assert nb[k..k + |b|] == DashedDate(b);
      DashedDateInjective(a, b);
    }
  }

  /** Saves on two different formatted dates never share a file name. */
  lemma DaysGetTheirOwnFiles(separator: string, a: string, b: string)
    requires IsFormattedDate(a) && IsFormattedDate(b)
    ensures DocName(separator, a) == DocName(separator, b) <==> a == b
    ensures ImageName(separator, a) == ImageName(separator, b) <==> a == b
  {
    FormattedDateShape(a);
    FormattedDateShape(b);
    FileNameIdentifiesDay(separator, "MoodJournal_", ".doc", a, b);
    FileNameIdentifiesDay(separator, "MoodDrawing_", ".png", a, b);
  }

  // ---------------------------------------------------------------------------
  // The text file

  /** The contents of the text file: the three `writer.write` calls, one after the other. */
  function EntryText(date: string, mood: string, note: string): (r: string)
    ensures |r| == |date| + |mood| + |note| + 22
  {
    ("Date: " + date + "\n") + ("Mood: " + mood + "\n\n") + ("Note:\n" + note + "\n")
  }

  /** What follows `prefix` in `s`, or `None` when `s` does not start with it. */
  function StripPrefix(prefix: string, s: string): (r: Option<string>)
    ensures r.Some? <==> |prefix| <= |s| && s[..|prefix|] == prefix
    ensures r.Some? ==> s == prefix + r.value
  {
    if |prefix| <= |s| && s[..|prefix|] == prefix then
      assert s == s[..|prefix|] + s[|prefix|..];
      Some(s[|prefix|..])
    else None
  }

  /** `StripPrefix` undoes putting a prefix in front. */
  lemma StripPrefixOfJoin(prefix: string, rest: string)
    ensures StripPrefix(prefix, prefix + rest) == Some(rest)
  {
    assert (prefix + rest)[..|prefix|] == prefix;
    assert (prefix + rest)[|prefix|..] == rest;
  }

  /** Splits `s` at its first line break: the line before it and the rest after it,
      or `None` when `s` holds no line break. */
  function BreakLine(s: string): (r: Option<(string, string)>)
    ensures r.None? <==> '\n' !in s
    ensures r.Some? ==> '\n' !in r.value.0 && s == r.value.0 + "\n" + r.value.1
  {
    if s == [] then None
    else if s[0] == '\n' then Some(([], s[1..]))
    else match BreakLine(s[1..])
      case None => None
      case Some((line, rest)) => Some(([s[0]] + line, rest))
  }

  /** A line without a break comes back whole from `BreakLine`, with what follows it. */
  lemma {:induction false} BreakLineOfJoin(line: string, rest: string)
    requires '\n' !in line
    ensures BreakLine(line + "\n" + rest) == Some((line, rest))
  {
    if line != [] {
      var s := line + "\n" + rest;
      assert s[0] == line[0] && s[1..] == line[1..] + "\n" + rest;
      BreakLineOfJoin(line[1..], rest);
      assert [s[0]] + line[1..] == line;
    } else {
      assert line + "\n" + rest == "\n" + rest;
    }
  }

  /** Reads a `heading value` line: the value and the text after its line break. */
  function ReadField(heading: string, s: string): (r: Option<(string, string)>)
    ensures r.Some? ==> '\n' !in r.value.0 && s == heading + (r.value.0 + "\n" + r.value.1)
  {
    match StripPrefix(heading, s)
    case None => None
    case Some(t) => BreakLine(t)
  }

  lemma ReadFieldOfJoin(heading: string, value: string, rest: string)
    requires '\n' !in value
    ensures ReadField(heading, heading + (value + "\n" + rest)) == Some((value, rest))
  {
    StripPrefixOfJoin(heading, value + "\n" + rest);
    BreakLineOfJoin(value, rest);
  }

  /** Reads the note section: its heading, the note, and the final line break. */
  function ReadNote(s: string): (r: Option<string>)
    ensures r.Some? ==> s == "\nNote:\n" + (r.value + "\n")
  {
    match StripPrefix("\nNote:\n", s)
    case None => None
    case Some(t) =>
      if t == [] || t[|t| - 1] != '\n' then None
      else
        assert t == t[..|t| - 1] + "\n";
        Some(t[..|t| - 1])
  }

  lemma ReadNoteOfJoin(note: string)
    ensures ReadNote("\nNote:\n" + (note + "\n")) == Some(note)
  {
    StripPrefixOfJoin("\nNote:\n", note + "\n");
    assert (note + "\n")[..|note|] == note;
  }

  /** Reads the date, mood and note back from a text file's contents. */
  function ParseEntry(t: string): (r: Option<Fields>)
  {
    match ReadField("Date: ", t)
    case None => None
    case Some((date, rest)) =>
      match ReadField("Mood: ", rest)
      case None => None
      case Some((mood, tail)) =>
        match ReadNote(tail)
        case None => None
        case Some(note) => Some(Fields(date, mood, note))
  }

  /** The text laid out field by field, as the parser reads it. */
  lemma EntryTextLayout(date: string, mood: string, note: string)
    ensures EntryText(date, mood, note)
         == "Date: " + (date + "\n" + ("Mood: " + (mood + "\n" + ("\nNote:\n" + (note + "\n")))))
  {
  }

  /** Whatever `ParseEntry` reads is what `EntryText` writes, with a one-line date and mood. */
  lemma ParseEntrySound(t: string)
    requires ParseEntry(t).Some?
    ensures var f := ParseEntry(t).value;
      EntryText(f.date, f.mood, f.note) == t && '\n' !in f.date && '\n' !in f.mood
  {
    var f := ParseEntry(t).value;
    EntryTextLayout(f.date, f.mood, f.note);
  }

  /** The text file gives back exactly what was saved when the date and the
      mood are single lines; the note may hold any text. */
  lemma EntryTextRoundTrip(date: string, mood: string, note: string)
    requires '\n' !in date && '\n' !in mood
    ensures ParseEntry(EntryText(date, mood, note)) == Some(Fields(date, mood, note))
  {
    var tail := "\nNote:\n" + (note + "\n");
    var rest := "Mood: " + (mood + "\n" + tail);
    EntryTextLayout(date, mood, note);
    ReadFieldOfJoin("Date: ", date, rest);
    ReadFieldOfJoin("Mood: ", mood, tail);
    ReadNoteOfJoin(note);
  }

  /** Different single-line entries never produce the same text. */
  lemma EntryTextInjective(a: Fields, b: Fields)
    requires '\n' !in a.date && '\n' !in a.mood && '\n' !in b.date && '\n' !in b.mood
    requires EntryText(a.date, a.mood, a.note) == EntryText(b.date, b.mood, b.note)
    ensures a == b
  {
    EntryTextRoundTrip(a.date, a.mood, a.note);
    EntryTextRoundTrip(b.date, b.mood, b.note);
  }

  /** The text of a save with mood "Sad" and the note "hello" on 01/02/2024. */
  lemma SampleText()
    ensures EntryText("01/02/2024", "Sad", "hello") == "Date: 01/02/2024\nMood: Sad\n\nNote:\nhello\n"
  {
  }

  /** Everything one save writes, for the given date, mood and note. */
  function Compose(separator: string, date: string, mood: string, note: string): (e: SavedEntry)
    ensures e.docName != e.imageName
    ensures '\n' !in date && '\n' !in mood ==> ParseEntry(e.text) == Some(Fields(date, mood, note))
  {
    DocAndImageNamesDiffer(separator, date);
    var e := SavedEntry(DocName(separator, date), EntryText(date, mood, note), ImageName(separator, date));
    if '\n' !in date && '\n' !in mood then EntryTextRoundTrip(date, mood, note); e else e
  }
}
