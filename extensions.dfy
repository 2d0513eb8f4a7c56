/** The extension allow-list of `VideoTranscriber` and its validator
    `allowed_file`: a name is accepted when it has a dot and the text after
    its LAST dot, lowered, is one of ten media suffixes. */
module Extensions {
  import opened PyStr

  /** `VideoTranscriber.ALLOWED_EXTENSIONS`. */
  const AllowedExtensions: set<string> :=
    {"mp4", "mov", "wmv", "avi", "mkv", "mp3", "wav", "aac", "flac", "ogg"}

  /** `allowed_file(filename)`: the `'.' in filename` test guards the index
      `[1]`, exactly as the short-circuiting `and` does in the source. */
  predicate AllowedFile(filename: string) {
    '.' in filename && Lower(RSplitOnce(filename, '.')[1]) in AllowedExtensions
  }

  /** A name without a dot is always refused. */
  lemma NoDotRejected(filename: string)
    requires '.' !in filename
    ensures !AllowedFile(filename)
  {
  }

  /** Only the suffix after the last dot is examined: whatever the stem is,
      dots included, the verdict is the allow-list membership of the lowered
      final suffix. */
  lemma {:induction false} LastSuffixDecides(stem: string, ext: string)
    requires '.' !in ext
    ensures AllowedFile(stem + "." + ext) <==> Lower(ext) in AllowedExtensions
  {
    RSplitOnceOfJoin(stem, ext, '.');
  }

  /** A name ending in a dot has an empty final suffix and is refused. */
  lemma TrailingDotRejected(stem: string)
    ensures !AllowedFile(stem + ".")
  {
    assert stem + "." == stem + "." + "";
    LastSuffixDecides(stem, "");
  }

  /** Position `k` of `filename` is a dot with no dot after it, and the
      lowered text after it is on the allow-list. */
  predicate AcceptedAt(filename: string, k: int) {
    0 <= k < |filename| && filename[k] == '.' && '.' !in filename[k + 1..]
    && Lower(filename[k + 1..]) in AllowedExtensions
  }

  /** An accepted name has an accepting dot: the last one. */
  lemma {:induction false} AllowedFileHasAcceptedDot(filename: string)
    requires AllowedFile(filename)
    ensures AcceptedAt(filename, |RSplitOnce(filename, '.')[0]|)
  {
    var parts := RSplitOnce(filename, '.');
    assert filename[|parts[0]| + 1..] == parts[1];
  }

  /** An accepting dot anywhere makes the name accepted. */
  lemma {:induction false} AcceptedDotAllowed(filename: string, k: int)
    requires AcceptedAt(filename, k)
    ensures AllowedFile(filename)
  {
    assert filename == filename[..k] + "." + filename[k + 1..];
    LastSuffixDecides(filename[..k], filename[k + 1..]);
  }

  /** The validator in one sentence: a name is accepted exactly when some
      position holds a dot, no dot follows it, and the lowered text after it
      is on the allow-list. */
  lemma {:induction false} AllowedFileIff(filename: string)
    ensures AllowedFile(filename) <==> exists k :: AcceptedAt(filename, k)
  {
    if AllowedFile(filename) {
      AllowedFileHasAcceptedDot(filename);
    }
    if k :| AcceptedAt(filename, k) {
      AcceptedDotAllowed(filename, k);
    }
  }

  /** Lowering the whole name does not change the verdict. */
  lemma {:induction false} AllowedFileOfLower(filename: string)
    ensures AllowedFile(Lower(filename)) <==> AllowedFile(filename)
  {
    LowerKeepsNonLetter(filename, '.');
    if '.' in filename {
      var parts := RSplitOnce(filename, '.');
      var stem, ext := parts[0], parts[1];
      LowerAppend(stem + ".", ext);
      LowerAppend(stem, ".");
      assert Lower(".") == ".";
      assert Lower(filename) == Lower(stem) + "." + Lower(ext);
      LowerKeepsNonLetter(ext, '.');
      LastSuffixDecides(stem, ext);
      LastSuffixDecides(Lower(stem), Lower(ext));
      LowerIdempotent(ext);
    }
  }

  /** The check ignores case: two names that differ only in the case of
      their ASCII letters get the same verdict. */
  lemma AllowedFileIgnoresCase(f: string, g: string)
    requires Lower(f) == Lower(g)
    ensures AllowedFile(f) <==> AllowedFile(g)
  {
    AllowedFileOfLower(f);
    AllowedFileOfLower(g);
  }

  /** The last suffix decides: "a.txt.mp4" is accepted. */
  lemma InnerDotIgnored()
    ensures AllowedFile("a.txt.mp4")
  {
    assert Lower("mp4") in AllowedExtensions by {
      assert Lower("mp4") == "mp4";
    }
    assert "a.txt.mp4" == "a.txt" + "." + "mp4";
    LastSuffixDecides("a.txt", "mp4");
  }

  /** The last suffix decides: "a.mp4.txt" is refused. */
  lemma InnerSuffixIgnored()
    ensures !AllowedFile("a.mp4.txt")
  {
    assert Lower("txt") !in AllowedExtensions by {
      assert Lower("txt") == "txt";
    }
    assert "a.mp4.txt" == "a.mp4" + "." + "txt";
    LastSuffixDecides("a.mp4", "txt");
  }

  /** Case does not matter: "CLIP.MP4" is accepted. */
  lemma UpperCaseAccepted()
    ensures AllowedFile("CLIP.MP4")
  {
    assert Lower("MP4") in AllowedExtensions by {
      assert Lower("MP4") == "mp4";
    }
    assert "CLIP.MP4" == "CLIP" + "." + "MP4";
    LastSuffixDecides("CLIP", "MP4");
  }

  /** A name that ends in a dot, "video.", is refused. */
  lemma TrailingDotExample()
    ensures !AllowedFile("video.")
  {
    assert "video." == "video" + ".";
    TrailingDotRejected("video");
  }

  /** A bare suffix with an empty stem, ".mp4", is accepted. */
  lemma BareSuffixAccepted()
    ensures AllowedFile(".mp4")
  {
    assert Lower("mp4") in AllowedExtensions by {
      assert Lower("mp4") == "mp4";
    }
    assert ".mp4" == "" + "." + "mp4";
    LastSuffixDecides("", "mp4");
  }
}
