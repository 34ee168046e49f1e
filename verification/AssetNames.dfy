/** Which paths the bundle validation takes for safe and for hashed, character by character. */
module AssetNames {
  import opened Common
  import opened AssetGraph

  /** No parent directory, no backslash and no colon. */
  lemma SafeExactly(asset: Path)
    ensures IsSafeReference(asset) <==>
            forall i :: 0 <= i < |asset| ==>
              asset[i] != '\\' && asset[i] != ':' && !(asset[i] == '.' && i + 1 < |asset| && asset[i + 1] == '.')
  {
    if i :| 0 <= i < |asset| && asset[i] == '.' && i + 1 < |asset| && asset[i + 1] == '.' {
      assert asset[i..][..2] == "..";
      assert StartsWith(asset[i..], "..");
    }
    if Contains(asset, "..") {
      var i :| 0 <= i <= |asset| && StartsWith(asset[i..], "..");
      assert asset[i..][0] == '.' && asset[i..][1] == '.';
      assert asset[i] == '.' && asset[i + 1] == '.';
    }
  }

  /** A directory, the stem of a file name, and its extension, if it has one. */
  datatype Name = Name(directory: string, stem: string, extension: Option<string>)

  predicate Legal(n: Name) {
    && (n.directory == "" || n.directory[|n.directory| - 1] == '/') && '/' !in n.stem
    && (match n.extension
        case None => '.' !in n.stem
        case Some(e) => '/' !in e && '.' !in e)
  }

  function FileName(n: Name): string {
    n.stem + (match n.extension case None => "" case Some(e) => "." + e)
  }

  lemma {:induction false} AfterLastSlash(directory: string, file: string)
    requires '/' !in file && (directory == "" || directory[|directory| - 1] == '/')
    ensures AfterLast(directory + file, '/') == file
    decreases |directory|
  {
    if directory == "" {
      assert directory + file == file;
    } else {
      assert directory[|directory| - 1] == (directory + file)[|directory| - 1];
      assert (directory + file)[1..] == directory[1..] + file;
      AfterLastSlash(directory[1..], file);
    }
  }

  lemma {:induction false} BeforeLastDot(stem: string, e: string)
    requires '.' !in e
    ensures BeforeLast(stem + ("." + e), '.') == stem
    decreases |stem|
  {
    var text := stem + ("." + e);
    assert text[|stem|] == '.';
    if stem == "" {
      assert text == "." + e && text[1..] == e;
    } else {
      assert text[1..] == stem[1..] + ("." + e);
      assert text[1..][|stem| - 1] == '.';
      BeforeLastDot(stem[1..], e);
    }
  }

  lemma {:induction false} StemOf(n: Name)
    requires Legal(n)
    ensures BeforeLast(AfterLast(n.directory + FileName(n), '/'), '.') == n.stem
  {
    AfterLastSlash(n.directory, FileName(n));
    match n.extension {
      case None => assert FileName(n) == n.stem;
      case Some(e) => BeforeLastDot(n.stem, e);
    }
  }

  /** A letter, a digit, an underscore or a dash. */
  predicate Hashes(c: char) {
    var x := c as int;
    0x61 <= x <= 0x7A || 0x41 <= x <= 0x5A || 0x30 <= x <= 0x39 || x == 0x5F || x == 0x2D
  }

  /** The stem is something, a dash and eight hash characters. */
  ghost predicate CarriesHash(stem: string) {
    exists base, hash :: stem == base + ("-" + hash) && base != "" && |hash| == 8 && forall c :: c in hash ==> Hashes(c)
  }

  /** A path is hashed exactly when it lies under `assets/` and the stem of its file name carries a hash. */
  lemma {:induction false} HashedExactly(n: Name)
    requires Legal(n)
    ensures IsHashed(n.directory + FileName(n)) <==> "assets/" <= n.directory + FileName(n) && CarriesHash(n.stem)
  {
    StemOf(n);
    HashAtEnd(n.stem);
  }

  /** The last nine characters are a dash and eight hash characters, with something before them. */
  predicate EndsInHash(stem: string) {
    |stem| > 9 && stem[|stem| - 9] == '-' && forall i :: |stem| - 8 <= i < |stem| ==> IsHashCharacter(stem[i])
  }

  lemma {:induction false} HashAtEnd(stem: string)
    ensures CarriesHash(stem) <==> EndsInHash(stem)
  {
    if EndsInHash(stem) {
      var base, hash := stem[..|stem| - 9], stem[|stem| - 8..];
      assert stem == base + ("-" + hash);
      assert forall c :: c in hash ==> Hashes(c);
    }
    if CarriesHash(stem) {
      var base, hash :| stem == base + ("-" + hash) && base != "" && |hash| == 8 && forall c :: c in hash ==> Hashes(c);
      HashBehind(base, hash);
    }
  }

  lemma {:induction false} HashBehind(base: string, hash: string)
    requires base != "" && |hash| == 8 && forall c :: c in hash ==> Hashes(c)
    ensures EndsInHash(base + ("-" + hash))
  {
    var stem, n := base + ("-" + hash), |base| + 1;
    forall i | n <= i < |stem|
      ensures IsHashCharacter(stem[i])
    {
      assert stem[i] == hash[i - n] && hash[i - n] in hash;
    }
  }

  /** Every path has such a form. */
  lemma {:induction false} ReadName(asset: Path) returns (n: Name)
    ensures Legal(n) && asset == n.directory + FileName(n)
    decreases |asset|
  {
    if asset == "" || asset[|asset| - 1] == '/' {
      n := Name(asset, "", None);
      assert asset == asset + "";
    } else {
      var c, shorter := asset[|asset| - 1], asset[..|asset| - 1];
      n := ReadName(shorter);
      n := ExtendName(n, c);
    }
  }

  lemma ExtendName(n: Name, c: char) returns (more: Name)
    requires Legal(n) && c != '/'
    ensures Legal(more) && more.directory + FileName(more) == (n.directory + FileName(n)) + [c]
  {
    if c == '.' {
      more := Name(n.directory, FileName(n), Some(""));
    } else {
      match n.extension {
        case None => more := n.(stem := n.stem + [c]);
        case Some(e) => more := n.(extension := Some(e + [c]));
      }
    }
    assert FileName(more) == FileName(n) + [c];
  }
}
