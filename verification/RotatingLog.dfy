/** file_rotating_stream.cc: the call session log, which keeps the beginning and the end of a
    stream of bytes in a fixed set of files, and the reader of those files. The directory maps
    the names of the files with the log's prefix to their contents; file operations succeed. */
module RotatingLog {
  import opened InetDigits

  // ---------------------------------------------------------------------------------------
  // Sizes
  // ---------------------------------------------------------------------------------------

  const ROTATING_LOG_FILE_DEFAULT_SIZE := 1024 * 1024

  function GetNumRotatingLogFiles(maxTotal: nat): (r: nat)
    ensures r >= 2
  {
    var n := (maxTotal / 2) / ROTATING_LOG_FILE_DEFAULT_SIZE;
    if n > 2 then n else 2
  }

  function GetRotatingLogSize(maxTotal: nat): nat {
    if GetNumRotatingLogFiles(maxTotal) > 2 then ROTATING_LOG_FILE_DEFAULT_SIZE else maxTotal / 4
  }

  /** What a stream writes from one Open to the next; `base` rotations came before it. The files
      it can have besides the current one are a slot of its own for the first file, and one less
      than the rotating files; only the first session has the former. */
  datatype Session = Session(maxTotal: nat, base: nat) {
    function RotatingFiles(): (r: nat)
      ensures r >= 2
    {
      GetNumRotatingLogFiles(maxTotal)
    }

    function Slots(): (r: nat)
      ensures r >= 1
    {
      if base == 0 then RotatingFiles() else RotatingFiles() - 1
    }

    // How many bytes from the beginning are kept for good.
    function Head(): nat {
      if base == 0 then maxTotal / 2 else 0
    }
  }

  // The size of the k-th file written: the very first holds half of everything.
  function Capacity(log: Session, k: nat): nat {
    if log.base + k == 0 then log.maxTotal / 2 else GetRotatingLogSize(log.maxTotal)
  }

  // The number of bytes written before the k-th file.
  function Start(log: Session, k: nat): nat {
    if k == 0 then 0 else Start(log, k - 1) + Capacity(log, k - 1)
  }

  /** After len bytes the n-th file is being filled. */
  predicate Filling(log: Session, len: nat, n: nat) {
    Start(log, n) <= len < Start(log, n + 1)
  }

  lemma {:induction false} StartGrows(log: Session, j: nat, k: nat)
    requires j <= k
    ensures Start(log, j) <= Start(log, k)
    decreases k - j
  {
    if j < k {
      StartGrows(log, j, k - 1);
    }
  }

  lemma StartsGrow(log: Session, n: nat)
    ensures forall k :: 0 <= k <= n ==> Start(log, k) <= Start(log, n)
  {
    forall k | 0 <= k <= n
      ensures Start(log, k) <= Start(log, n)
    {
      StartGrows(log, k, n);
    }
  }

  lemma {:induction false} StartIs(log: Session, j: nat, k: nat)
    requires 1 <= log.base + j && j <= k
    ensures Start(log, k) == Start(log, j) + (k - j) * GetRotatingLogSize(log.maxTotal)
    decreases k - j
  {
    if j < k {
      StartIs(log, j, k - 1);
      hide *;
      var l := GetRotatingLogSize(log.maxTotal);
      assert (k - j) * l == (k - 1 - j) * l + l;
    }
  }

  lemma FirstStarts(log: Session)
    ensures Start(log, 0) == 0
    ensures log.base == 0 ==> Start(log, 1) == log.maxTotal / 2
  {
  }

  /** Which file is being filled is determined by the number of bytes. */
  lemma FillingIsUnique(log: Session, len: nat, m: nat, n: nat)
    requires Filling(log, len, m) && Filling(log, len, n)
    ensures m == n
  {
    if m < n {
      StartGrows(log, m + 1, n);
    } else if n < m {
      StartGrows(log, n + 1, m);
    }
  }

  // ---------------------------------------------------------------------------------------
  // What the files hold, by index
  // ---------------------------------------------------------------------------------------

  function Min(a: int, b: int): int {
    if a < b then a else b
  }

  // The bytes of the k-th file written.
  function Chunk(log: Session, w: string, k: nat): string
    requires Start(log, k + 1) <= |w|
  {
    w[Start(log, k)..Start(log, k + 1)]
  }

  // The number of the file written that has index i while the n-th is being filled.
  function FileNumber(log: Session, n: nat, i: nat): nat
    requires i <= n
  {
    if log.base == 0 && i == log.Slots() then 0 else n - i
  }

  /** The contents of the files, the current one first: those written before it follow in reverse
      order, except that the very first file stays at the last index. */
  function Layout(log: Session, w: string, n: nat): (files: seq<string>)
    requires Filling(log, |w|, n)
    ensures |files| == Min(n, log.Slots()) + 1
  {
    StartsGrow(log, n);
    seq(Min(n, log.Slots()) + 1, i requires 0 <= i <= Min(n, log.Slots()) =>
      if i == 0 then w[Start(log, n)..]
      else
        assert Start(log, FileNumber(log, n, i) + 1) <= |w|;
        Chunk(log, w, FileNumber(log, n, i)))
  }

  // The files after a rotation: a new one, the ones up to the rotation index moved up, which
  // overwrites the one there, and the ones beyond it.
  function Rotated(files: seq<string>, rotationIndex: nat): seq<string> {
    if |files| <= rotationIndex then [""] + files
    else [""] + files[..rotationIndex] + files[rotationIndex + 1..]
  }

  // The rotation index while the n-th file is being filled.
  function RotationIndex(log: Session, n: nat): nat {
    if log.base + n >= log.RotatingFiles() then log.RotatingFiles() - 1 else log.RotatingFiles()
  }

  lemma LayoutAt(log: Session, w: string, n: nat, i: nat)
    requires Filling(log, |w|, n) && i <= Min(n, log.Slots())
    ensures i == 0 ==> Layout(log, w, n)[i] == w[Start(log, n)..]
    ensures i > 0 ==> Start(log, FileNumber(log, n, i) + 1) <= |w|
    ensures i > 0 ==> Layout(log, w, n)[i] == Chunk(log, w, FileNumber(log, n, i))
  {
    StartsGrow(log, n);
  }

  lemma ChunkOfMore(log: Session, w: string, p: string, k: nat)
    requires Start(log, k + 1) <= |w|
    ensures Chunk(log, w + p, k) == Chunk(log, w, k)
  {
    StartGrows(log, k, k + 1);
  }

  lemma AppendInFile(log: Session, w: string, p: string, n: nat)
    requires Filling(log, |w|, n) && Filling(log, |w + p|, n)
    ensures Layout(log, w + p, n) == Layout(log, w, n)[0 := Layout(log, w, n)[0] + p]
  {
    hide Layout, Start;
    var a, b := Layout(log, w + p, n), Layout(log, w, n);
    forall i | 0 <= i < |a|
      ensures a[i] == b[0 := b[0] + p][i]
    {
      LayoutAt(log, w + p, n, i);
      LayoutAt(log, w, n, i);
      if i > 0 {
        ChunkOfMore(log, w, p, FileNumber(log, n, i));
      }
    }
  }

  // The size of the current file and the rotation index while the n-th file is being filled.
  predicate Sizes(log: Session, n: nat, maxFileSize: nat, rotationIndex: nat) {
    maxFileSize == Capacity(log, n) && rotationIndex == RotationIndex(log, n)
  }

  // What OnRotation makes of them.
  lemma SizesNext(log: Session, n: nat, maxFileSize: nat, rotationIndex: nat)
    requires Sizes(log, n, maxFileSize, rotationIndex)
    ensures 0 < rotationIndex <= log.RotatingFiles()
    ensures var rotations := log.base + n + 1;
            Sizes(log, n + 1, if rotations == 1 then GetRotatingLogSize(log.maxTotal) else maxFileSize,
                  if rotations != 1 && rotations == log.RotatingFiles() then rotationIndex - 1 else rotationIndex)
  {
  }

  // They stay as they are when the stream is opened again.
  lemma SizesAgain(log: Session, n: nat, maxFileSize: nat, rotationIndex: nat)
    requires Sizes(log, n, maxFileSize, rotationIndex)
    ensures Sizes(log.(base := log.base + n), 0, maxFileSize, rotationIndex)
  {
  }

  lemma NothingWritten(log: Session)
    requires log.maxTotal >= 4
    ensures Filling(log, 0, 0) && Start(log, 0) == 0 && Layout(log, "", 0) == [""]
  {
    LayoutAt(log, "", 0, 0);
  }

  // A part that fits in the current file stays in it or fills it.
  lemma PartFits(log: Session, len: nat, part: nat, n: nat)
    requires Filling(log, len, n) && len - Start(log, n) + part <= Capacity(log, n)
    ensures if len - Start(log, n) + part < Capacity(log, n) then Filling(log, len + part, n)
            else len + part == Start(log, n + 1)
  {
  }

  // Where a file is found after a rotation.
  lemma RotatedAt(files: seq<string>, rotationIndex: nat, i: nat)
    requires 0 < i < |Rotated(files, rotationIndex)|
    ensures Rotated(files, rotationIndex)[0] == ""
    ensures Rotated(files, rotationIndex)[i] == if i <= rotationIndex then files[i - 1] else files[i]
  {
  }

  // The file at the last index stays there once it holds the very first bytes.
  function IndexBefore(log: Session, n: nat, i: nat): int {
    if log.base == 0 && i == log.Slots() <= n then i else i - 1
  }

  lemma FileNumberMoves(log: Session, n: nat, i: nat)
    requires 1 < i <= Min(n + 1, log.Slots())
    ensures var j := IndexBefore(log, n, i);
            0 < j <= Min(n, log.Slots()) && FileNumber(log, n, j) == FileNumber(log, n + 1, i)
  {
  }

  // Filling the current file to the last byte rotates the files.
  lemma AppendAndRotate(log: Session, w: string, p: string, n: nat)
    requires Filling(log, |w|, n) && |w + p| == Start(log, n + 1) && log.maxTotal >= 4
    ensures Filling(log, |w + p|, n + 1)
    ensures var files := Layout(log, w, n);
            Layout(log, w + p, n + 1) == Rotated(files[0 := files[0] + p], RotationIndex(log, n))
  {
    var files := Layout(log, w, n);
    var full := files[0 := files[0] + p];
    var a, b := Layout(log, w + p, n + 1), Rotated(full, RotationIndex(log, n));
    assert |a| == |b|;
    LayoutAt(log, w + p, n + 1, 0);
    forall i | 0 < i < |a|
      ensures a[i] == b[i]
    {
      RotatedAt(full, RotationIndex(log, n), i);
      AppendAndRotateAt(log, w, p, n, i);
    }
  }

  lemma AppendAndRotateAt(log: Session, w: string, p: string, n: nat, i: nat)
    requires Filling(log, |w|, n) && |w + p| == Start(log, n + 1) && Filling(log, |w + p|, n + 1)
    requires 0 < i <= Min(n + 1, log.Slots())
    ensures var files := Layout(log, w, n);
            var full := files[0 := files[0] + p];
            (i <= RotationIndex(log, n) || i < |files|) &&
            Layout(log, w + p, n + 1)[i] == if i <= RotationIndex(log, n) then full[i - 1] else full[i]
  {
    hide Layout, Start;
    var files := Layout(log, w, n);
    LayoutAt(log, w + p, n + 1, i);
    if i == 1 {
      LayoutAt(log, w, n, 0);
      assert FileNumber(log, n + 1, 1) == n;
      assert files[0 := files[0] + p][0] == files[0] + p;
      assert (w + p)[Start(log, n)..Start(log, n + 1)] == w[Start(log, n)..] + p;
    } else {
      FileNumberMoves(log, n, i);
      var j := IndexBefore(log, n, i);
      LayoutAt(log, w, n, j);
      ChunkOfMore(log, w, p, FileNumber(log, n, j));
    }
  }

  // ---------------------------------------------------------------------------------------
  // What a reader gets
  // ---------------------------------------------------------------------------------------

  /** The contents of the files from the last index down to the first. */
  function OldestFirst(files: seq<string>): string {
    if files == [] then "" else OldestFirst(files[1..]) + files[0]
  }

  // The number of the first file that is kept, other than one that is kept for good.
  function FirstKept(log: Session, n: nat): nat {
    if n > log.Slots() then n - log.RotatingFiles() + 1 else if log.base == 0 then 1 else 0
  }

  // Where the bytes that are kept after those of the head begin.
  function KeptFrom(log: Session, n: nat): nat {
    Start(log, FirstKept(log, n))
  }

  lemma KeptIsBefore(log: Session, n: nat, i: nat)
    requires 1 <= i <= Min(n, log.Slots())
    ensures log.Head() <= KeptFrom(log, n) <= Start(log, n - i + 1) <= Start(log, n)
    ensures i == Min(n, log.Slots()) && log.base == 0 ==> KeptFrom(log, n) == Start(log, n - i + 1)
    ensures i == Min(n, log.Slots()) && log.base > 0 ==> KeptFrom(log, n) == Start(log, n - i)
  {
    FirstStarts(log);
    StartGrows(log, if log.base == 0 then 1 else 0, FirstKept(log, n));
    StartGrows(log, FirstKept(log, n), n - i + 1);
    StartGrows(log, n - i + 1, n);
  }

  // The file at index i, between its ends.
  lemma FileAt(log: Session, w: string, n: nat, i: nat)
    requires Filling(log, |w|, n) && 1 <= i <= Min(n, log.Slots())
    ensures log.Head() <= |w|
    ensures i == Min(n, log.Slots()) && log.base == 0 ==> Layout(log, w, n)[i] == w[..log.Head()]
    ensures i < Min(n, log.Slots()) || log.base > 0 ==>
      Start(log, n - i) <= Start(log, n - i + 1) <= |w| &&
      Layout(log, w, n)[i] == w[Start(log, n - i)..Start(log, n - i + 1)]
  {
    LayoutAt(log, w, n, i);
    StartGrows(log, 1, n);
    StartGrows(log, n - i + 1, n);
    StartGrows(log, n - i, n - i + 1);
    FirstStarts(log);
  }

  lemma TakeOne(files: seq<string>, i: nat)
    requires i < |files|
    ensures OldestFirst(files[i..]) == OldestFirst(files[i + 1..]) + files[i]
    ensures i + 1 == |files| ==> OldestFirst(files[i..]) == files[i]
  {
    assert files[i..][1..] == files[i + 1..] && files[i..][0] == files[i];
    assert "" + files[i] == files[i];
  }

  lemma {:induction false} OldestFrom(log: Session, w: string, n: nat, i: nat)
    requires Filling(log, |w|, n) && 1 <= i <= Min(n, log.Slots())
    ensures log.Head() <= KeptFrom(log, n) <= Start(log, n - i + 1) <= |w|
    ensures OldestFirst(Layout(log, w, n)[i..]) == w[..log.Head()] + w[KeptFrom(log, n)..Start(log, n - i + 1)]
    decreases n - i
  {
    hide Start, KeptFrom, Layout, OldestFirst;
    KeptIsBefore(log, n, i);
    FileAt(log, w, n, i);
    TakeOne(Layout(log, w, n), i);
    if i < Min(n, log.Slots()) {
      OldestFrom(log, w, n, i + 1);
    }
    if i < Min(n, log.Slots()) {
      assert n - (i + 1) + 1 == n - i;
      SliceOn(w[..log.Head()], w, KeptFrom(log, n), Start(log, n - i), Start(log, n - i + 1));
    } else if log.base == 0 {
      assert w[..log.Head()] + w[KeptFrom(log, n)..KeptFrom(log, n)] == w[..log.Head()];
    } else {
      var file := w[KeptFrom(log, n)..Start(log, n - i + 1)];
      assert w[..0] + file == file;
    }
  }

  lemma SliceOn(head: string, w: string, a: nat, b: nat, c: nat)
    requires a <= b <= c <= |w|
    ensures head + w[a..b] + w[b..c] == head + w[a..c]
  {
    assert w[a..b] + w[b..c] == w[a..c];
    assert head + w[a..b] + w[b..c] == head + (w[a..b] + w[b..c]);
  }

  /** The files read oldest first: everything, until more files have been filled than there are;
      from then on the head followed by a suffix of the rest. */
  lemma KeepsHeadAndTail(log: Session, w: string, n: nat)
    requires Filling(log, |w|, n)
    ensures n > 0 ==> log.Head() <= KeptFrom(log, n) <= |w|
    ensures OldestFirst(Layout(log, w, n)) ==
      if n <= log.Slots() then w else w[..log.Head()] + w[KeptFrom(log, n)..]
  {
    hide Start, KeptFrom, Layout, OldestFirst;
    var files := Layout(log, w, n);
    LayoutAt(log, w, n, 0);
    TakeOne(files, 0);
    assert files[0..] == files;
    FirstStarts(log);
    if n == 0 {
      assert w[0..] == w;
    } else {
      OldestFrom(log, w, n, 1);
      assert n - 1 + 1 == n;
      SliceToEnd(w[..log.Head()], w, KeptFrom(log, n), Start(log, n));
      if n <= log.Slots() {
        WholeKept(log, n);
        assert w[..log.Head()] + w[log.Head()..] == w;
      }
    }
  }

  // Nothing has been dropped as long as there is a slot for every file.
  lemma WholeKept(log: Session, n: nat)
    requires n <= log.Slots()
    ensures KeptFrom(log, n) == log.Head()
  {
    FirstStarts(log);
  }

  lemma SliceToEnd(head: string, w: string, a: nat, b: nat)
    requires a <= b <= |w|
    ensures head + w[a..b] + w[b..] == head + w[a..]
  {
    SliceOn(head, w, a, b, |w|);
    assert w[b..|w|] == w[b..] && w[a..|w|] == w[a..];
  }

  function TotalSize(files: seq<string>): nat {
    if files == [] then 0 else TotalSize(files[1..]) + |files[0]|
  }

  lemma {:induction false} TotalIsLength(files: seq<string>)
    ensures TotalSize(files) == |OldestFirst(files)|
  {
    if files != [] {
      TotalIsLength(files[1..]);
    }
  }

  // All files together fit the budget, however many of them there are.
  lemma CapacitiesFit(log: Session)
    ensures log.maxTotal / 2 + log.RotatingFiles() * GetRotatingLogSize(log.maxTotal) <= log.maxTotal
  {
    var r := log.RotatingFiles();
    if r > 2 {
      assert r * ROTATING_LOG_FILE_DEFAULT_SIZE <= log.maxTotal / 2;
    }
  }

  // The bytes written so far, by the size of the files.
  lemma WrittenLess(log: Session, len: nat, n: nat)
    requires Filling(log, len, n)
    ensures len < log.Head() + (if log.base == 0 then n else n + 1) * GetRotatingLogSize(log.maxTotal)
            || (n == 0 && log.base == 0 && len < log.Head())
  {
    FirstStarts(log);
    StartIs(log, if log.base == 0 then 1 else 0, n + 1);
  }

  // What has been dropped when the n-th file is being filled and there is no slot for all of them.
  lemma DroppedBytes(log: Session, len: nat, n: nat)
    requires Filling(log, len, n) && n > log.Slots()
    ensures (log.RotatingFiles() - 1) * GetRotatingLogSize(log.maxTotal) <= len - KeptFrom(log, n)
                                       < log.RotatingFiles() * GetRotatingLogSize(log.maxTotal)
  {
    StartIs(log, FirstKept(log, n), n + 1);
    StartIs(log, FirstKept(log, n), n);
  }

  /** The files never hold more than the budget; and when something has been dropped, the suffix
      that is kept is at least all rotating files but the current one. */
  lemma StaysWithinBudget(log: Session, w: string, n: nat)
    requires Filling(log, |w|, n)
    ensures TotalSize(Layout(log, w, n)) <= log.maxTotal
    ensures n > log.Slots() ==>
      |w| - KeptFrom(log, n) >= (log.RotatingFiles() - 1) * GetRotatingLogSize(log.maxTotal)
  {
    TotalIsLength(Layout(log, w, n));
    KeepsHeadAndTail(log, w, n);
    CapacitiesFit(log);
    if n > log.Slots() {
      DroppedBytes(log, |w|, n);
    } else {
      WrittenLess(log, |w|, n);
      Scale(if log.base == 0 then n else n + 1, log.RotatingFiles(), GetRotatingLogSize(log.maxTotal));
    }
  }

  lemma Scale(a: nat, b: nat, l: nat)
    requires a <= b
    ensures a * l <= b * l
  {
  }

  // The beginning of what was written, up to half of the budget, is still there.
  ghost predicate BeginningKept(log: Session, w: string, n: nat)
    requires Filling(log, |w|, n)
  {
    w[..Min(|w|, log.maxTotal / 2)] <= OldestFirst(Layout(log, w, n))
  }

  // From some place on the text starts like the whole.
  predicate StartsAgain(w: string, from: nat, n: nat) {
    n <= |w| && from <= |w| && w[..n] <= w[from..]
  }

  /** For every text: the beginning is still there if and only if the stream had not rotated before it
      was opened, or no file has been dropped, or the text repeats itself where the kept bytes start. */
  lemma BeginningKeptIff(log: Session, w: string, n: nat)
    requires Filling(log, |w|, n)
    ensures BeginningKept(log, w, n) <==>
      log.base == 0 || n <= log.Slots() || StartsAgain(w, KeptFrom(log, n), Min(|w|, log.maxTotal / 2))
  {
    hide Layout, OldestFirst, KeptFrom;
    KeepsHeadAndTail(log, w, n);
    if n > log.Slots() {
      assert w[..log.Head()] <= w[..log.Head()] + w[KeptFrom(log, n)..];
      assert w[..0] + w[KeptFrom(log, n)..] == w[KeptFrom(log, n)..];
    }
  }

  lemma DroppedSome(log: Session, len: nat, n: nat)
    requires log.base > 0 && log.maxTotal >= 4 && n > log.Slots() && Filling(log, len, n)
    ensures 0 < KeptFrom(log, n) < len
  {
    var l := GetRotatingLogSize(log.maxTotal);
    FirstStarts(log);
    StartIs(log, 0, FirstKept(log, n));
    Scale(1, FirstKept(log, n), l);
    DroppedBytes(log, len, n);
    Scale(1, log.RotatingFiles() - 1, l);
  }

  // A text of one letter and then another.
  lemma OtherStart(len: nat, from: nat, n: nat) returns (w: string)
    requires 0 < from < len && 0 < n <= len
    ensures |w| == len && !StartsAgain(w, from, n)
  {
    w := "a" + seq(len - 1, _ => 'b');
    assert w[..n][0] == 'a' && w[from..][0] == 'b';
  }

  /** For every number of bytes: the beginning is safe, whatever is written, if and only if the stream
      had not rotated before it was opened, or no file has been dropped. */
  lemma BeginningSafeIff(log: Session, len: nat, n: nat)
    requires log.maxTotal >= 4 && Filling(log, len, n)
    ensures (forall w: string :: |w| == len ==> BeginningKept(log, w, n)) <==> log.base == 0 || n <= log.Slots()
  {
    hide BeginningKept, StartsAgain, KeptFrom;
    if log.base > 0 && n > log.Slots() {
      DroppedSome(log, len, n);
      var w := OtherStart(len, KeptFrom(log, n), Min(len, log.maxTotal / 2));
      BeginningKeptIff(log, w, n);
    } else {
      forall w: string | |w| == len
        ensures BeginningKept(log, w, n)
      {
        BeginningKeptIff(log, w, n);
      }
    }
  }

  // ---------------------------------------------------------------------------------------
  // File names
  // ---------------------------------------------------------------------------------------

  // std::string's operator<.
  predicate LexLess(a: string, b: string) {
    if b == "" then false
    else if a == "" then true
    else if a[0] != b[0] then a[0] < b[0]
    else LexLess(a[1..], b[1..])
  }

  function ZeroPad(s: string, width: nat): string
    decreases width - |s|
  {
    if |s| >= width then s else ZeroPad("0" + s, width)
  }

  /** GetFilePath: the index is padded with zeros to the digits of the largest one. */
  function FilePath(prefix: string, index: nat, numFiles: nat): string
    requires numFiles > 0
  {
    prefix + "_" + ZeroPad(Dec(index), |Dec(numFiles - 1)|)
  }

  lemma {:induction false} DecLengthGrows(i: nat, j: nat)
    requires i <= j
    ensures |Dec(i)| <= |Dec(j)|
    decreases j
  {
    if i >= 10 {
      DecLengthGrows(i / 10, j / 10);
    }
  }

  lemma ZeroInFront(s: string)
    requires AllDigits(s) && AllHexDigits(s)
    ensures AllDigits("0" + s) && AllHexDigits("0" + s) && Number("0" + s, 10) == Number(s, 10)
    decreases |s|
  {
    if s == "" {
      NumberOfAppended("", '0', 10);
      assert "" + ['0'] == "0" + s;
    } else {
      var init := s[..|s| - 1];
      ZeroInFront(init);
      assert ("0" + s)[..|s|] == "0" + init;
    }
  }

  lemma {:induction false} PaddedNumber(s: string, width: nat)
    requires AllDigits(s) && AllHexDigits(s) && |s| <= width
    ensures var p := ZeroPad(s, width);
            |p| == width && AllDigits(p) && AllHexDigits(p) && Number(p, 10) == Number(s, 10)
    decreases width - |s|
  {
    if |s| < width {
      ZeroInFront(s);
      PaddedNumber("0" + s, width);
    }
  }

  lemma {:induction false} LexOfAppended(a: string, x: char, b: string, y: char)
    requires |a| == |b|
    ensures LexLess(a + [x], b + [y]) <==> if a == b then x < y else LexLess(a, b)
  {
    if a == "" {
      assert a + [x] == [x] && b + [y] == [y];
    } else {
      assert (a + [x])[1..] == a[1..] + [x] && (b + [y])[1..] == b[1..] + [y];
      LexOfAppended(a[1..], x, b[1..], y);
      assert a == [a[0]] + a[1..] && b == [b[0]] + b[1..];
    }
  }

  // A number of digits, by its last one.
  lemma LastDigit(s: string)
    requires s != "" && AllDigits(s) && AllHexDigits(s)
    ensures var init, c := s[..|s| - 1], s[|s| - 1];
            && AllDigits(init) && AllHexDigits(init) && s == init + [c]
            && Number(s, 10) == 10 * Number(init, 10) + (c as int - '0' as int) && '0' <= c <= '9'
  {
    NumberOfAppended(s[..|s| - 1], s[|s| - 1], 10);
    assert s == s[..|s| - 1] + [s[|s| - 1]];
  }

  /** Numbers of the same width sort as text the way they sort as numbers. */
  lemma {:induction false} LexIsNumeric(a: string, b: string)
    requires |a| == |b| && AllDigits(a) && AllHexDigits(a) && AllDigits(b) && AllHexDigits(b)
    ensures Number(a, 10) < Number(b, 10) ==> LexLess(a, b)
    ensures Number(a, 10) == Number(b, 10) ==> a == b
    decreases |a|
  {
    if a != "" {
      var m := |a| - 1;
      LastDigit(a);
      LastDigit(b);
      hide *;
      LexIsNumeric(a[..m], b[..m]);
      LexIsNumeric(b[..m], a[..m]);
      LexOfAppended(a[..m], a[m], b[..m], b[m]);
    }
  }

  lemma {:induction false} LexCommonPrefix(p: string, a: string, b: string)
    ensures LexLess(p + a, p + b) <==> LexLess(a, b)
  {
    if p == "" {
      assert p + a == a && p + b == b;
    } else {
      assert (p + a)[1..] == p[1..] + a && (p + b)[1..] == p[1..] + b;
      LexCommonPrefix(p[1..], a, b);
    }
  }

  /** Zero padding makes the names sort by index. */
  lemma NamesSortByIndex(prefix: string, i: nat, j: nat, numFiles: nat)
    requires i < j < numFiles
    ensures LexLess(FilePath(prefix, i, numFiles), FilePath(prefix, j, numFiles))
  {
    var width := |Dec(numFiles - 1)|;
    NumberOfDec(i);
    NumberOfDec(j);
    DecLengthGrows(i, numFiles - 1);
    DecLengthGrows(j, numFiles - 1);
    PaddedNumber(Dec(i), width);
    PaddedNumber(Dec(j), width);
    LexIsNumeric(ZeroPad(Dec(i), width), ZeroPad(Dec(j), width));
    LexCommonPrefix(prefix + "_", ZeroPad(Dec(i), width), ZeroPad(Dec(j), width));
  }

  lemma {:induction false} LexIrreflexive(a: string)
    ensures !LexLess(a, a)
  {
    if a != "" {
      LexIrreflexive(a[1..]);
    }
  }

  function Names(prefix: string, numFiles: nat): (names: seq<string>)
    requires numFiles > 0
    ensures |names| == numFiles
  {
    seq(numFiles, i requires 0 <= i < numFiles => FilePath(prefix, i, numFiles))
  }

  ghost predicate Distinct(names: seq<string>) {
    forall i, j :: 0 <= i < j < |names| ==> names[i] != names[j]
  }

  lemma NamesDiffer(prefix: string, numFiles: nat)
    requires numFiles > 0
    ensures Distinct(Names(prefix, numFiles))
  {
    forall i, j | 0 <= i < j < numFiles
      ensures FilePath(prefix, i, numFiles) != FilePath(prefix, j, numFiles)
    {
      NamesSortByIndex(prefix, i, j, numFiles);
      LexIrreflexive(FilePath(prefix, i, numFiles));
    }
  }

  // ---------------------------------------------------------------------------------------
  // The stream
  // ---------------------------------------------------------------------------------------

  /** The directory holds exactly these files, under the first of the names. */
  ghost predicate Holds(dir: map<string, string>, names: seq<string>, files: seq<string>) {
    && |files| <= |names|
    && (forall k :: 0 <= k < |files| ==> names[k] in dir && dir[names[k]] == files[k])
    && (forall k :: |files| <= k < |names| ==> names[k] !in dir)
    && (forall f :: f in dir ==> f in names)
  }

  lemma WrittenToCurrent(dir: map<string, string>, names: seq<string>, files: seq<string>, part: string)
    requires Holds(dir, names, files) && files != [] && names != [] && Distinct(names)
    ensures names[0] in dir && Holds(dir[names[0] := dir[names[0]] + part], names, files[0 := files[0] + part])
  {
  }

  class CallSessionFileRotatingStream {
    const prefix: string
    const maxTotalLogSize: nat
    const fileNames: seq<string>
    var dir: map<string, string>
    var isOpen: bool
    var maxFileSize: nat
    var rotationIndex: nat
    var currentBytesWritten: nat
    var numRotations: nat
    ghost var started: bool    // whether Open has been called
    ghost var base: nat        // the number of rotations when it was last called
    ghost var written: string  // all the bytes written since

    ghost function Log(): Session
      reads `base
    {
      Session(maxTotalLogSize, base)
    }

    ghost predicate Constant() {
      && maxTotalLogSize >= 4
      && fileNames == Names(prefix, GetNumRotatingLogFiles(maxTotalLogSize) + 1)
    }

    /** What the files hold is determined by the bytes written, and so is the state. */
    ghost predicate Valid()
      reads this
    {
      && Constant()
      && base <= numRotations
      && Sizes(Log(), numRotations - base, maxFileSize, rotationIndex)
      && Filling(Log(), |written|, numRotations - base)
      && (started ==> Holds(dir, fileNames, Layout(Log(), written, numRotations - base)))
      && (!started ==> written == "" && numRotations == 0)
      && (isOpen ==> started && currentBytesWritten == |written| - Start(Log(), numRotations - base))
      && (!isOpen ==> currentBytesWritten == 0)
    }

    constructor (path: string, maxTotal: nat, existing: map<string, string>)
      requires maxTotal >= 4
      ensures Valid() && !started && !isOpen
      ensures prefix == path && maxTotalLogSize == maxTotal && dir == existing
    {
      prefix, maxTotalLogSize, dir := path, maxTotal, existing;
      fileNames := Names(path, GetNumRotatingLogFiles(maxTotal) + 1);
      isOpen, currentBytesWritten, numRotations := false, 0, 0;
      maxFileSize := maxTotal / 2;
      rotationIndex := GetNumRotatingLogFiles(maxTotal) + 1 - 1;
      started, base, written := false, 0, "";
    }

    /** Deletes the files there are and creates the current one; what has changed with the rotations
        so far stays as it is. */
    method Open() returns (ok: bool)
      requires Valid()
      modifies this
      ensures Valid() && started && isOpen && ok && written == ""
      ensures base == numRotations == old(numRotations)
    {
      hide Layout, Holds, Distinct, Filling, Start, Sizes, Names;
      dir := map[];
      SizesAgain(Log(), numRotations - base, maxFileSize, rotationIndex);
      started, base, written := true, numRotations, "";
      NothingWritten(Log());
      NamesDiffer(prefix, |fileNames|);
      ok := OpenCurrentFile();
      OnlyCurrent(fileNames);
    }

    method OpenCurrentFile() returns (ok: bool)
      requires Constant()
      modifies `dir, `isOpen, `currentBytesWritten
      ensures dir == old(dir)[fileNames[0] := ""]
      ensures isOpen && ok && currentBytesWritten == if old(isOpen) then 0 else old(currentBytesWritten)
    {
      CloseCurrentFile();
      dir := dir[fileNames[0] := ""];
      isOpen := true;
      return true;
    }

    method CloseCurrentFile()
      modifies `isOpen, `currentBytesWritten
      ensures !isOpen && currentBytesWritten == if old(isOpen) then 0 else old(currentBytesWritten)
    {
      if !isOpen {
        return;
      }
      currentBytesWritten := 0;
      isOpen := false;
    }

    method Close()
      requires Valid()
      modifies `isOpen, `currentBytesWritten
      ensures Valid() && !isOpen
    {
      hide Layout, Holds, Filling, Start, Sizes, Names;
      CloseCurrentFile();
    }

    /** Moves the files in the directory up, over the one at the rotation index. */
    method RotateFiles(ghost files: seq<string>)
      requires Constant() && isOpen && files != []
      requires 0 < rotationIndex < |fileNames|
      requires Holds(dir, fileNames, files)
      modifies `dir, `isOpen, `currentBytesWritten, `maxFileSize, `rotationIndex, `numRotations
      ensures Holds(dir, fileNames, Rotated(files, old(rotationIndex)))
      ensures isOpen && currentBytesWritten == 0 && numRotations == old(numRotations) + 1
      ensures maxFileSize == if numRotations == 1 then GetRotatingLogSize(maxTotalLogSize) else old(maxFileSize)
      ensures rotationIndex == if numRotations != 1 && numRotations == |fileNames| - 1 then old(rotationIndex) - 1
                               else old(rotationIndex)
    {
      hide Moved, Holds, Distinct, Rotated;
      ghost var before := dir;
      CloseCurrentFile();
      NamesDiffer(prefix, |fileNames|);
      if fileNames[rotationIndex] in dir {
        dir := dir - {fileNames[rotationIndex]};
      }
      MovedFirst(before, fileNames, files, rotationIndex);
      var i := rotationIndex;
      while i > 0
        invariant 0 <= i <= rotationIndex
        invariant Moved(before, dir, fileNames, rotationIndex, i)
        modifies `dir
      {
        var rotatedName, unrotatedName := fileNames[i], fileNames[i - 1];
        MovedNext(before, dir, fileNames, rotationIndex, i);
        if unrotatedName in dir {
          dir := (dir - {unrotatedName})[rotatedName := dir[unrotatedName]];
        }
        i := i - 1;
      }
      RotatedHolds(before, dir, fileNames, files, rotationIndex);
      var ok := OpenCurrentFile();
      OnRotation();
    }

    method OnRotation()
      requires rotationIndex > 0
      modifies `maxFileSize, `rotationIndex, `numRotations
      ensures numRotations == old(numRotations) + 1
      ensures maxFileSize == if numRotations == 1 then GetRotatingLogSize(maxTotalLogSize) else old(maxFileSize)
      ensures rotationIndex == if numRotations != 1 && numRotations == |fileNames| - 1 then old(rotationIndex) - 1
                               else old(rotationIndex)
    {
      numRotations := numRotations + 1;
      if numRotations == 1 {
        maxFileSize := GetRotatingLogSize(maxTotalLogSize);
      } else if numRotations == |fileNames| - 1 {
        rotationIndex := rotationIndex - 1;
      }
    }

    /** Appends the data to what has been written, one file at a time. */
    method Write(data: string) returns (ok: bool)
      requires Valid()
      modifies this
      ensures Valid() && started == old(started) && base == old(base) && isOpen == old(isOpen) && ok == isOpen
      ensures written == if isOpen then old(written) + data else old(written)
    {
      if !isOpen {
        return false;
      }
      ghost var all := written + data;
      var rest := data;
      assert all == written + rest;
      while rest != ""
        invariant Valid() && isOpen && started && base == old(base) && all == written + rest
        decreases |rest|
      {
        RoomLeft();
        var remainingBytes := maxFileSize - currentBytesWritten;
        var writeLength := Min(|rest|, remainingBytes);
        assert written + rest[..writeLength] + rest[writeLength..] == written + rest;
        WriteToFile(rest[..writeLength]);
        rest := rest[writeLength..];
      }
      return true;
    }

    lemma RoomLeft()
      requires Valid() && isOpen
      ensures currentBytesWritten < maxFileSize
    {
    }

    // One round of the loop: the part fits in the current file.
    method WriteToFile(part: string)
      requires Valid() && isOpen && currentBytesWritten + |part| <= maxFileSize
      modifies this
      ensures Valid() && isOpen && started && base == old(base) && written == old(written) + part
    {
      hide Layout, Holds, Distinct, Rotated, Filling, Start, Names, Capacity, RotationIndex;
      ghost var log, n, whole := Log(), numRotations - base, written + part;
      SizesNext(log, n, maxFileSize, rotationIndex);
      assert maxFileSize == Capacity(log, n) && rotationIndex == RotationIndex(log, n);
      PartFits(log, |written|, |part|, n);
      NamesDiffer(prefix, |fileNames|);
      ghost var files := Layout(log, written, n);
      WrittenToCurrent(dir, fileNames, files, part);
      dir := dir[fileNames[0] := dir[fileNames[0]] + part];
      currentBytesWritten := currentBytesWritten + |part|;
      // A full file becomes the newest of the rotated ones.
      if currentBytesWritten >= maxFileSize {
        AppendAndRotate(log, written, part, n);
        RotateFiles(files[0 := files[0] + part]);
      } else {
        AppendInFile(log, written, part, n);
      }
      written := whole;
    }
  }

  // Two names have the same content, or are both absent.
  predicate SameEntry(a: map<string, string>, f: string, b: map<string, string>, g: string) {
    (f in a <==> g in b) && (f in a ==> a[f] == b[g])
  }

  // The files from index i to the rotation index have moved up, and index i is free.
  ghost predicate Moved(before: map<string, string>, now: map<string, string>, names: seq<string>,
                        rotationIndex: nat, i: nat) {
    && i <= rotationIndex < |names| && names[i] !in now
    && (forall k :: i < k <= rotationIndex ==> SameEntry(now, names[k], before, names[k - 1]))
    && (forall k :: 0 <= k < |names| && (k < i || rotationIndex < k) ==> SameEntry(now, names[k], before, names[k]))
    && (forall f :: f in now ==> f in names)
  }

  lemma MovedFirst(before: map<string, string>, names: seq<string>, files: seq<string>, rotationIndex: nat)
    requires rotationIndex < |names| && Distinct(names) && Holds(before, names, files)
    ensures Moved(before, before - {names[rotationIndex]}, names, rotationIndex, rotationIndex)
    ensures names[rotationIndex] !in before ==> Moved(before, before, names, rotationIndex, rotationIndex)
  {
  }

  lemma MovedNext(before: map<string, string>, now: map<string, string>, names: seq<string>,
                  rotationIndex: nat, i: nat)
    requires Moved(before, now, names, rotationIndex, i) && i > 0 && Distinct(names)
    ensures names[i - 1] in now ==>
      Moved(before, (now - {names[i - 1]})[names[i] := now[names[i - 1]]], names, rotationIndex, i - 1)
    ensures names[i - 1] !in now ==> Moved(before, now, names, rotationIndex, i - 1)
  {
    assert SameEntry(now, names[i - 1], before, names[i - 1]);
  }

  lemma OnlyCurrent(names: seq<string>)
    requires names != [] && Distinct(names)
    ensures Holds(map[names[0] := ""], names, [""])
  {
  }

  lemma RotatedHolds(before: map<string, string>, moved: map<string, string>, names: seq<string>,
                     files: seq<string>, rotationIndex: nat)
    requires Holds(before, names, files) && Distinct(names) && files != [] && rotationIndex > 0
    requires Moved(before, moved, names, rotationIndex, 0)
    ensures Holds(moved[names[0] := ""], names, Rotated(files, rotationIndex))
  {
    var after, now := Rotated(files, rotationIndex), moved[names[0] := ""];
    forall k | 0 <= k < |names|
      ensures k < |after| ==> names[k] in now && now[names[k]] == after[k]
      ensures k >= |after| ==> names[k] !in now
    {
      if k > 0 {
        assert SameEntry(moved, names[k], before, if k <= rotationIndex then names[k - 1] else names[k]);
        if k < |after| {
          RotatedAt(files, rotationIndex, k);
        }
      }
    }
  }

  // ---------------------------------------------------------------------------------------
  // The reader
  // ---------------------------------------------------------------------------------------

  // What sorting distinct names with std::greater leaves.
  ghost predicate Descending(names: seq<string>) {
    forall i, j :: 0 <= i < j < |names| ==> LexLess(names[j], names[i])
  }

  lemma {:induction false} LexTransitive(a: string, b: string, c: string)
    requires LexLess(a, b) && LexLess(b, c)
    ensures LexLess(a, c)
    decreases |b|
  {
    if a != "" && a[0] == b[0] && b[0] == c[0] {
      LexTransitive(a[1..], b[1..], c[1..]);
    }
  }

  lemma NotBothLess(a: string, b: string)
    ensures !(LexLess(a, b) && LexLess(b, a))
  {
    LexIrreflexive(a);
    if LexLess(a, b) && LexLess(b, a) {
      LexTransitive(a, b, a);
    }
  }

  // The first of the names in descending order is no smaller than any other.
  lemma SameFirst(a: seq<string>, b: seq<string>)
    requires Descending(a) && Descending(b) && a != [] && (forall f :: f in a <==> f in b)
    ensures b != [] && a[0] == b[0]
  {
    assert a[0] in b;
    var i :| 0 <= i < |b| && b[i] == a[0];
    assert b[0] in a;
    var j :| 0 <= j < |a| && a[j] == b[0];
    if i > 0 && j > 0 {
      NotBothLess(a[0], b[0]);
    }
  }

  lemma RestOfDescending(a: seq<string>)
    requires Descending(a) && a != []
    ensures Descending(a[1..]) && forall f :: f in a[1..] <==> f in a && f != a[0]
  {
    LexIrreflexive(a[0]);
    forall f
      ensures f in a[1..] <==> f in a && f != a[0]
    {
      if f in a && f != a[0] {
        var i :| 0 <= i < |a| && a[i] == f;
        assert a[1..][i - 1] == f;
      }
    }
  }

  lemma SomeMember(b: seq<string>) returns (f: string)
    requires b != []
    ensures f in b
  {
    f := b[0];
  }

  lemma EmptyAsWell(a: seq<string>, b: seq<string>)
    requires a == [] && (forall f :: f in a <==> f in b)
    ensures b == []
  {
    if b != [] {
      var f := SomeMember(b);
    }
  }

  lemma {:induction false} DescendingIsUnique(a: seq<string>, b: seq<string>)
    requires Descending(a) && Descending(b) && (forall f :: f in a <==> f in b)
    ensures a == b
  {
    if a == [] {
      EmptyAsWell(a, b);
    } else {
      SameFirst(a, b);
      RestOfDescending(a);
      RestOfDescending(b);
      DescendingIsUnique(a[1..], b[1..]);
      assert a == [a[0]] + a[1..] && b == [b[0]] + b[1..];
    }
  }

  // The first m names, from the last to the first.
  function Backwards(names: seq<string>, m: nat): (s: seq<string>)
    requires m <= |names|
    ensures |s| == m
  {
    seq(m, k requires 0 <= k < m => names[m - 1 - k])
  }

  lemma BackwardsDescends(prefix: string, numFiles: nat, m: nat)
    requires 0 < numFiles && m <= numFiles
    ensures Descending(Backwards(Names(prefix, numFiles), m))
  {
    var s := Backwards(Names(prefix, numFiles), m);
    forall i, j | 0 <= i < j < m
      ensures LexLess(s[j], s[i])
    {
      NamesSortByIndex(prefix, m - 1 - j, m - 1 - i, numFiles);
    }
  }

  lemma BackwardsElements(names: seq<string>, m: nat)
    requires m <= |names|
    ensures forall f :: f in Backwards(names, m) <==> f in names[..m]
  {
    var s := Backwards(names, m);
    forall f
      ensures f in s <==> f in names[..m]
    {
      if f in names[..m] {
        var i :| 0 <= i < m && names[i] == f;
        assert s[m - 1 - i] == f;
      }
    }
  }

  /** The names of the files in the reader's order are those of the files by index, the last one
      first, whatever order the directory lists them in. */
  lemma ReaderOrder(prefix: string, numFiles: nat, dir: map<string, string>, files: seq<string>, list: seq<string>)
    requires numFiles > 0 && Holds(dir, Names(prefix, numFiles), files)
    requires Descending(list) && (forall f :: f in list <==> f in dir)
    ensures list == Backwards(Names(prefix, numFiles), |files|)
  {
    var names := Names(prefix, numFiles);
    BackwardsDescends(prefix, numFiles, |files|);
    BackwardsElements(names, |files|);
    forall f
      ensures f in dir <==> f in names[..|files|]
    {
      if f in dir {
        var i :| 0 <= i < |names| && names[i] == f;
        assert i < |files|;
        assert names[..|files|][i] == f;
      }
    }
    DescendingIsUnique(list, Backwards(names, |files|));
  }

  /** The contents of the files of a list, one after the other. */
  function Contents(dir: map<string, string>, list: seq<string>): string
    requires forall f :: f in list ==> f in dir
  {
    if list == [] then "" else dir[list[0]] + Contents(dir, list[1..])
  }

  lemma {:induction false} ContentsBackwards(dir: map<string, string>, names: seq<string>, files: seq<string>, m: nat)
    requires Holds(dir, names, files) && m <= |files|
    ensures forall f :: f in Backwards(names, m) ==> f in dir
    ensures Contents(dir, Backwards(names, m)) == OldestFirst(files[..m])
    decreases m
  {
    if m > 0 {
      var s := Backwards(names, m);
      ContentsBackwards(dir, names, files, m - 1);
      assert s[1..] == Backwards(names, m - 1) && s[0] == names[m - 1];
      AppendOldest(files[..m - 1], files[m - 1]);
      assert files[..m] == files[..m - 1] + [files[m - 1]];
    }
  }

  lemma {:induction false} AppendOldest(files: seq<string>, file: string)
    ensures OldestFirst(files + [file]) == file + OldestFirst(files)
  {
    if files == [] {
      assert files + [file] == [file] && [file][1..] == [];
      assert OldestFirst([file]) == "" + file;
      assert file + "" == file;
    } else {
      assert (files + [file])[1..] == files[1..] + [file];
      AppendOldest(files[1..], file);
      assert (file + OldestFirst(files[1..])) + files[0] == file + (OldestFirst(files[1..]) + files[0]);
    }
  }

  /** From writing to reading: the files in the reader's order give back the head and a contiguous
      suffix of the rest, or everything as long as nothing was dropped. */
  lemma ReadsBack(prefix: string, log: Session, w: string, n: nat, dir: map<string, string>, list: seq<string>)
    requires Filling(log, |w|, n)
    requires Holds(dir, Names(prefix, log.RotatingFiles() + 1), Layout(log, w, n))
    requires Descending(list) && (forall f :: f in list <==> f in dir)
    ensures n > 0 ==> log.Head() <= KeptFrom(log, n) <= |w|
    ensures Contents(dir, list) == if n <= log.Slots() then w else w[..log.Head()] + w[KeptFrom(log, n)..]
  {
    hide *;
    var numFiles, files := log.RotatingFiles() + 1, Layout(log, w, n);
    ReaderOrder(prefix, numFiles, dir, files, list);
    ContentsBackwards(dir, Names(prefix, numFiles), files, |files|);
    assert files[..|files|] == files;
    KeepsHeadAndTail(log, w, n);
  }

  class FileRotatingStreamReader {
    const dir: map<string, string>  // the directory as it is read
    const fileNames: seq<string>

    ghost predicate Valid() {
      forall f :: f in fileNames ==> f in dir
    }

    // The sorted list of the names with the prefix.
    constructor (directory: map<string, string>, list: seq<string>)
      requires Descending(list) && (forall f :: f in list <==> f in directory)
      ensures Valid() && dir == directory && fileNames == list
    {
      dir, fileNames := directory, list;
    }

    method GetSize() returns (totalSize: nat)
      requires Valid()
      ensures totalSize == |Contents(dir, fileNames)|
    {
      totalSize := 0;
      var i := 0;
      while i < |fileNames|
        invariant 0 <= i <= |fileNames|
        invariant totalSize + |Contents(dir, fileNames[i..])| == |Contents(dir, fileNames)|
      {
        assert fileNames[i..][1..] == fileNames[i + 1..];
        totalSize := totalSize + |dir[fileNames[i]]|;
        i := i + 1;
      }
    }

    /** Fills the buffer with as much as there is, in order. */
    method ReadAll(size: nat) returns (buffer: string)
      requires Valid()
      ensures buffer == Contents(dir, fileNames)[..Min(size, |Contents(dir, fileNames)|)]
    {
      ghost var all := Contents(dir, fileNames);
      buffer := "";
      var i := 0;
      assert fileNames[0..] == fileNames && buffer + all == all;
      while i < |fileNames|
        invariant 0 <= i <= |fileNames| && |buffer| <= size
        invariant |buffer| < size ==> buffer + Contents(dir, fileNames[i..]) == all
        invariant |buffer| == size ==> size <= |all| && buffer == all[..size]
      {
        if |buffer| < size {
          var file := dir[fileNames[i]];
          var n := Min(|file|, size - |buffer|);
          assert fileNames[i..][1..] == fileNames[i + 1..];
          ReadMore(buffer, file, n, Contents(dir, fileNames[i + 1..]));
          buffer := buffer + file[..n];
        } else {
          break;
        }
        i := i + 1;
      }
    }
  }

  lemma ReadMore(buffer: string, file: string, n: nat, rest: string)
    requires n <= |file|
    ensures n == |file| ==> (buffer + file[..n]) + rest == buffer + (file + rest)
    ensures |buffer| + n <= |buffer + (file + rest)|
    ensures buffer + file[..n] == (buffer + (file + rest))[..|buffer| + n]
  {
  }
}
