/** `VideoScanner.is_video_file`: a file is a video when the lower-cased
    suffix of its name is one of the configured video extensions. */
module Classify {
  import opened Paths
  import opened Config

  /** `str.lower` as far as membership in an all-ASCII table can tell:
      'A'..'Z' become 'a'..'z', and KELVIN SIGN (U+212A), the one non-ASCII
      character whose lower-case form is ASCII, becomes 'k'. Every other
      character keeps its identity; its real lower-case form is non-ASCII
      and so matches no table entry either way. */
  function LowerChar(c: char): char {
    if 'A' <= c <= 'Z' then (c as int + 32) as char
    else if c == '\U{212A}' then 'k'
    else c
  }

  function Lower(s: string): string {
    seq(|s|, i requires 0 <= i < |s| => LowerChar(s[i]))
  }

  /** Lower-casing never creates or removes a dot. */
  lemma LowerCharDot(c: char)
    ensures LowerChar(c) == '.' <==> c == '.'
  {
  }

  /** The shape every configured extension has: a dot, then at least one
      character, no further dot, nothing upper-case. */
  predicate ExtensionShaped(e: string) {
    && |e| >= 2
    && e[0] == '.'
    && (forall k :: 1 <= k < |e| ==> e[k] != '.')
    && Lower(e) == e
  }

  predicate WellFormedTable(table: set<string>) {
    forall e :: e in table ==> ExtensionShaped(e)
  }

  /** Classification against an arbitrary table. */
  predicate IsVideoName(table: set<string>, name: string) {
    Lower(Suffix(name)) in table
  }

  /** `VideoScanner.is_video_file(path)`. */
  predicate IsVideoFile(p: AbsPath) {
    IsVideoName(VideoExtensions, p.Name())
  }

  /** `name` ends, ignoring case, with `e`, and has something before it. */
  predicate HasExtension(name: string, e: string) {
    |e| < |name| && Lower(name[|name| - |e|..]) == e
  }

  lemma Row1Shaped()
    ensures forall e :: e in Row1 ==> ExtensionShaped(e)
  {
  }

  lemma Row2Shaped()
    ensures forall e :: e in Row2 ==> ExtensionShaped(e)
  {
  }

  lemma Row3Shaped()
    ensures forall e :: e in Row3 ==> ExtensionShaped(e)
  {
  }

  /** Every configured extension starts with '.', has exactly one dot and
      is entirely lower-case, which is what makes matching the lower-cased
      suffix against the table sound. */
  lemma VideoTableWellFormed()
    ensures WellFormedTable(VideoExtensions)
  {
    Rows();
    Row1Shaped();
    Row2Shaped();
    Row3Shaped();
  }

  /** `LastDot` is the only index that is a dot with no dot after it. */
  lemma LastDotUnique(s: string, k: int)
    requires -1 <= k < |s|
    requires k >= 0 ==> s[k] == '.'
    requires forall j :: k < j < |s| ==> s[j] != '.'
    ensures LastDot(s) == k
  {
  }

  /** Taking the suffix and lower-casing commute. */
  lemma SuffixLower(name: string)
    ensures Suffix(Lower(name)) == Lower(Suffix(name))
  {
    var i := LastDot(name);
    forall j | i < j < |name| ensures Lower(name)[j] != '.' {
      LowerCharDot(name[j]);
    }
    if i >= 0 {
      LowerCharDot(name[i]);
    }
    LastDotUnique(Lower(name), i);
    if 0 < i < |name| - 1 {
      assert Lower(name)[i..] == Lower(name[i..]);
    }
  }

  /** Classification ignores case: names that agree once lower-cased, such
      as `X.MP4` and `x.mp4`, are classified alike against any table. */
  lemma CaseInsensitive(table: set<string>, a: string, b: string)
    requires Lower(a) == Lower(b)
    ensures IsVideoName(table, a) <==> IsVideoName(table, b)
  {
    SuffixLower(a);
    SuffixLower(b);
  }

  /** Classification against a well-formed table is exactly "ends, ignoring
      case, with one of the table's extensions, with something before it".
      In particular a name is a video only because of the table, and a
      hidden file such as `.mp4` is not one. */
  lemma ClassifyIff(table: set<string>, name: string)
    requires WellFormedTable(table)
    ensures IsVideoName(table, name) <==> exists e :: e in table && HasExtension(name, e)
  {
    if IsVideoName(table, name) {
      VideoHasExtension(table, name);
    }
    if e :| e in table && HasExtension(name, e) {
      ExtensionIsSuffix(name, e);
    }
  }

  lemma VideoHasExtension(table: set<string>, name: string)
    requires WellFormedTable(table) && IsVideoName(table, name)
    ensures HasExtension(name, Lower(Suffix(name)))
  {
    var s := Suffix(name);
    assert ExtensionShaped(Lower(s));
  }

  /** A name that ends, ignoring case, with a well-formed extension and has
      something before it has exactly that extension as its suffix. */
  lemma ExtensionIsSuffix(name: string, e: string)
    requires ExtensionShaped(e) && HasExtension(name, e)
    ensures Lower(Suffix(name)) == e
  {
    var k := |name| - |e|;
    var tail := name[k..];
    assert LowerChar(tail[0]) == e[0];
    LowerCharDot(tail[0]);
    forall j | k < j < |name| ensures name[j] != '.' {
      assert LowerChar(tail[j - k]) == e[j - k];
      LowerCharDot(tail[j - k]);
    }
    LastDotUnique(name, k);
    assert Suffix(name) == tail;
  }

  /** A name made of one character and a well-formed extension has that
      extension as its suffix. */
  lemma SampleName(e: string)
    requires ExtensionShaped(e)
    ensures Lower(Suffix("x" + e)) == e
  {
    var name := "x" + e;
    forall j | 1 < j < |name| ensures name[j] != '.' {
      assert name[j] == e[j - 1];
    }
    LastDotUnique(name, 1);
    assert name[1..] == e;
  }

  /** Classification depends on the table alone, and monotonically: a
      well-formed table t1 accepts no name that t2 rejects exactly when
      every entry of t1 is in t2. So a table without new entries classifies
      no new file as a video. */
  lemma TableOrderIff(t1: set<string>, t2: set<string>)
    requires WellFormedTable(t1)
    ensures (forall name :: IsVideoName(t1, name) ==> IsVideoName(t2, name)) <==> t1 <= t2
  {
    if forall name :: IsVideoName(t1, name) ==> IsVideoName(t2, name) {
      forall e | e in t1 ensures e in t2 {
        SampleName(e);
        assert IsVideoName(t1, "x" + e);
      }
    }
  }

  /** No image suffix classifies as a video. */
  lemma ImageIsNotVideo(name: string)
    requires Lower(Suffix(name)) in ImageExtensions
    ensures !IsVideoName(VideoExtensions, name)
  {
    TablesDisjoint();
  }

  /** Names the classifier accepts: the suffix decides, whatever its case
      and however many dots come before it. */
  lemma VideoNameExamples()
    ensures IsVideoName(VideoExtensions, "clip.mp4")
    ensures IsVideoName(VideoExtensions, "CLIP.MP4")
    ensures IsVideoName(VideoExtensions, "a.b.MKV")
  {
    LastDotUnique("clip.mp4", 4);
    assert Lower(".mp4") == ".mp4";
    LastDotUnique("CLIP.MP4", 4);
    assert Lower(".MP4") == ".mp4";
    LastDotUnique("a.b.MKV", 3);
    assert Lower(".MKV") == ".mkv";
  }

  /** Names the classifier rejects: a hidden file named like an extension
      has no suffix, and only the last suffix counts. */
  lemma OtherNameExamples()
    ensures !IsVideoName(VideoExtensions, ".mp4")
    ensures !IsVideoName(VideoExtensions, "clip.mp4.txt")
    ensures !IsVideoName(VideoExtensions, "photo.jpg")
  {
    LastDotUnique(".mp4", 0);
    LastDotUnique("clip.mp4.txt", 8);
    assert Lower(".txt") == ".txt";
    LastDotUnique("photo.jpg", 5);
    assert Lower(".jpg") == ".jpg";
  }
}
