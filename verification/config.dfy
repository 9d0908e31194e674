/** The constant tables of `src/config.py`. */
module Config {

  /** `VIDEO_EXTENSIONS`: recognised video container suffixes, each
      lower-case and starting with the dot. */
  const VideoExtensions: set<string> := {
    ".mp4", ".avi", ".mkv", ".mov", ".wmv", ".flv", ".webm", ".m4v",
    ".3gp", ".mpg", ".mpeg", ".vob", ".ts", ".mts", ".m2ts", ".divx",
    ".xvid", ".rm", ".rmvb", ".asf", ".ogv", ".f4v", ".f4p"
  }

  /** `IMAGE_EXTENSIONS`, kept for reference; nothing classifies with it. */
  const ImageExtensions: set<string> := {
    ".jpg", ".jpeg", ".png", ".gif", ".bmp", ".tiff", ".tif", ".webp",
    ".heic", ".heif", ".raw", ".cr2", ".nef", ".orf", ".sr2", ".arw"
  }

  // The video table row by row, as the configuration lays it out. Facts
  // about the whole table are proved a row at a time: comparing a few
  // string literals at once is cheap, comparing all of them is not.
  const Row1: set<string> := {".mp4", ".avi", ".mkv", ".mov", ".wmv", ".flv", ".webm", ".m4v"}
  const Row2: set<string> := {".3gp", ".mpg", ".mpeg", ".vob", ".ts", ".mts", ".m2ts", ".divx"}
  const Row3: set<string> := {".xvid", ".rm", ".rmvb", ".asf", ".ogv", ".f4v", ".f4p"}

  lemma Rows()
    ensures VideoExtensions == Row1 + Row2 + Row3
  {
  }

  lemma Row1Size()
    ensures |Row1| == 8
  {
  }

  lemma Row2Size()
    ensures |Row2| == 8
  {
  }

  lemma Row3Size()
    ensures |Row3| == 7
  {
  }

  lemma RowsDisjoint()
    ensures Row1 !! Row2 && Row1 !! Row3 && Row2 !! Row3
  {
  }

  /** The video table has 23 distinct entries, among them the common ones. */
  lemma VideoExtensionsSize()
    ensures |VideoExtensions| == 23
    ensures ".mp4" in VideoExtensions && ".mkv" in VideoExtensions && ".m2ts" in VideoExtensions
  {
    Rows();
    Row1Size();
    Row2Size();
    Row3Size();
    RowsDisjoint();
    assert |Row1 + Row2| == 16;
  }

  lemma Row1NotImage()
    ensures Row1 !! ImageExtensions
  {
  }

  lemma Row2NotImage()
    ensures Row2 !! ImageExtensions
  {
  }

  lemma Row3NotImage()
    ensures Row3 !! ImageExtensions
  {
  }

  /** No suffix is both a video and an image suffix. */
  lemma TablesDisjoint()
    ensures VideoExtensions !! ImageExtensions
  {
    Rows();
    Row1NotImage();
    Row2NotImage();
    Row3NotImage();
  }
}
