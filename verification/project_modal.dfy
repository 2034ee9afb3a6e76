/** The project detail dialog (`components/ProjectModal.tsx`): the image
    carousel and its index, the "Copy link" flag, the player chosen for a
    demo video, and the labels it derives from a project. The clipboard is
    an output, the two-second timer that clears the flag is a method the
    caller invokes, and rendering is not modelled. */
module ProjectModal {
  import opened Wrappers
  import opened Js
  import Text

  /** `project?.imageUrl ? [project.imageUrl] : []`. */
  function Images(p: Obj): (r: seq<JsVal>)
    ensures |r| == 1 <==> Truthy(Get(p, "imageUrl"))
    ensures |r| <= 1
    ensures |r| == 1 ==> r[0] == Get(p, "imageUrl")
  {
    if Truthy(Get(p, "imageUrl")) then [Get(p, "imageUrl")] else []
  }

  /** JavaScript's `%`, which truncates toward zero: the remainder takes the
      sign of the dividend. */
  function JsRem(a: int, b: int): (r: int)
    requires b > 0
    ensures a >= 0 ==> r == a % b && 0 <= r < b
    ensures a < 0 ==> -b < r <= 0
  {
    if a >= 0 then a % b else -((-a) % b)
  }

  /** The remainder of a number below twice the divisor. */
  lemma RemBelowTwice(x: int, n: int)
    requires 0 <= x < 2 * n
    ensures JsRem(x, n) == if x < n then x else x - n
  {
    if x < n {
      assert x == 0 * n + x;
    } else {
      assert x == 1 * n + (x - n);
    }
  }

  /** The index `nextImage` moves to among `n` images. */
  function NextIndex(i: int, n: nat): int
  {
    if n > 0 then JsRem(i + 1, n) else i
  }

  /** The index `prevImage` moves to among `n` images. */
  function PrevIndex(i: int, n: nat): int
  {
    if n > 0 then JsRem(i - 1 + n, n) else i
  }

  /** From an index in range, both moves stay in range. */
  lemma MovesStayInRange(i: int, n: nat)
    requires 0 <= i < n
    ensures 0 <= NextIndex(i, n) < n && 0 <= PrevIndex(i, n) < n
  {
  }

  /** `prevImage` undoes `nextImage`, and the other way round. */
  lemma PrevUndoesNext(i: int, n: nat)
    requires 0 <= i < n
    ensures PrevIndex(NextIndex(i, n), n) == i
    ensures NextIndex(PrevIndex(i, n), n) == i
  {
    RemBelowTwice(i + 1, n);
    var j := NextIndex(i, n);
    RemBelowTwice(j - 1 + n, n);
    RemBelowTwice(i - 1 + n, n);
    var k := PrevIndex(i, n);
    RemBelowTwice(k + 1, n);
  }

  /** Moving through `n` images in one direction comes back after `n` steps:
      `nextImage` visits the indices in order and wraps after the last. */
  lemma NextWraps(n: nat)
    requires n > 0
    ensures NextIndex(n - 1, n) == 0
    ensures PrevIndex(0, n) == n - 1
  {
  }

  /** The dialog's state: the images of the shown project, the carousel
      index, and whether the live link was just copied. */
  class Modal {
    var images: seq<JsVal>
    var index: int
    var copied: bool

    /** The index points at an image whenever there is one. */
    ghost predicate Valid()
      reads this
    {
      0 <= index && (images != [] ==> index < |images|)
    }

    constructor()
      ensures images == [] && index == 0 && !copied
      ensures Valid()
    {
      images := [];
      index := 0;
      copied := false;
    }

    /** The dialog opens on a project: the images are the project's and the
        index is reset to the first. */
    method Open(p: Obj)
      modifies this
      ensures images == Images(p) && index == 0 && copied == old(copied)
      ensures Valid()
    {
      images := Images(p);
      index := 0;
    }

    /** `nextImage`: nothing happens without images. */
    method Next()
      requires Valid()
      modifies this
      ensures images == old(images) && copied == old(copied)
      ensures index == NextIndex(old(index), |images|)
      ensures old(images) == [] ==> index == old(index)
      ensures Valid()
    {
      if |images| > 0 {
        index := JsRem(index + 1, |images|);
      }
    }

    /** `prevImage`: nothing happens without images. */
    method Prev()
      requires Valid()
      modifies this
      ensures images == old(images) && copied == old(copied)
      ensures index == PrevIndex(old(index), |images|)
      ensures old(images) == [] ==> index == old(index)
      ensures Valid()
    {
      if |images| > 0 {
        index := JsRem(index - 1 + |images|, |images|);
      }
    }

    /** A dot under the image selects that image. */
    method Select(i: int)
      requires 0 <= i < |images|
      modifies this
      ensures images == old(images) && copied == old(copied) && index == i
      ensures Valid()
    {
      index := i;
    }

    /** `handleCopyLink`: a truthy live URL is written to the clipboard (the
        returned value) and the flag is set; otherwise nothing happens. */
    method CopyLink(p: Obj) returns (clipboard: Option<JsVal>)
      modifies this
      ensures images == old(images) && index == old(index)
      ensures Truthy(Get(p, "liveUrl")) ==> clipboard == Some(Get(p, "liveUrl")) && copied
      ensures !Truthy(Get(p, "liveUrl")) ==> clipboard == None && copied == old(copied)
    {
      if Truthy(Get(p, "liveUrl")) {
        clipboard := Some(Get(p, "liveUrl"));
        copied := true;
      } else {
        clipboard := None;
      }
    }

    /** The timer two seconds after a copy clears the flag. */
    method CopiedExpires()
      modifies this
      ensures images == old(images) && index == old(index) && !copied
    {
      copied := false;
    }
  }

  /** A project has at most one image, so the carousel never leaves it. */
  lemma OneImageStays(p: Obj, i: int)
    requires 0 <= i && (Images(p) != [] ==> i < |Images(p)|)
    ensures NextIndex(i, |Images(p)|) == i && PrevIndex(i, |Images(p)|) == i
  {
  }

  /** The player for a demo video. */
  datatype Player = YouTubeFrame(src: string) | VimeoFrame(src: string) | VideoTag(src: string)

  /** The embedded player: a YouTube address has its first `watch?v=` and
      then its first `youtu.be/` rewritten; a Vimeo address its first
      `vimeo.com/`; anything else plays as a plain video. */
  function EmbedPlayer(url: string): (r: Player)
    ensures (Text.Contains(url, "youtube.com") || Text.Contains(url, "youtu.be")) <==> r.YouTubeFrame?
    ensures !r.YouTubeFrame? && Text.Contains(url, "vimeo.com") <==> r.VimeoFrame?
    ensures r.VideoTag? ==> r.src == url
  {
    if Text.Contains(url, "youtube.com") || Text.Contains(url, "youtu.be") then
      YouTubeFrame(Text.ReplaceFirst(Text.ReplaceFirst(url, "watch?v=", "embed/"), "youtu.be/", "youtube.com/embed/"))
    else if Text.Contains(url, "vimeo.com") then
      VimeoFrame(Text.ReplaceFirst(url, "vimeo.com/", "player.vimeo.com/video/"))
    else
      VideoTag(url)
  }

  /** A YouTube watch page plays through the embed address of its video. */
  lemma YouTubeWatchEmbed(id: string)
    requires !Text.Contains(id, "youtu.be/")
    ensures EmbedPlayer("https://www.youtube.com/" + "watch?v=" + id)
         == YouTubeFrame("https://www.youtube.com/" + "embed/" + id)
  {
    var p := "https://www.youtube.com/";
    var url := p + "watch?v=" + id;
    assert Text.OccursAt(url, "youtube.com", 12) by {
      assert url[12..23] == "youtube.com";
    }
    Text.ReplaceFirstAfter(p, "watch?v=", id, "embed/", 1);
    EmbedPrefix();
    Text.AbsentIn(p + "embed/", id, "youtu.be/", 5);
    Text.ReplaceFirstAbsent(p + "embed/" + id, "youtu.be/", "youtube.com/embed/");
  }

  /** The embed address of a watch page cannot hold a short-link host
      before the video id. */
  lemma EmbedPrefix()
    ensures Text.NoStartIn("https://www.youtube.com/" + "embed/", "youtu.be/", 5)
  {
  }

  /** A youtu.be short link plays through the embed address of its video. */
  lemma YouTubeShortEmbed(id: string)
    requires !Text.Contains(id, "watch?v=")
    ensures EmbedPlayer("https://" + "youtu.be/" + id)
         == YouTubeFrame("https://" + "youtube.com/embed/" + id)
  {
    var url := "https://" + "youtu.be/" + id;
    assert Text.OccursAt(url, "youtu.be", 8) by {
      assert url[8..16] == "youtu.be";
    }
    Text.AbsentIn("https://" + "youtu.be/", id, "watch?v=", 0);
    Text.ReplaceFirstAbsent(url, "watch?v=", "embed/");
    Text.ReplaceFirstAfter("https://", "youtu.be/", id, "youtube.com/embed/", 0);
  }

  /** A Vimeo page address plays through the Vimeo player. */
  lemma VimeoEmbed(id: string)
    requires !Text.Contains(id, "youtube.com") && !Text.Contains(id, "youtu.be")
    ensures EmbedPlayer("https://" + "vimeo.com/" + id) == VimeoFrame("https://" + "player.vimeo.com/video/" + id)
  {
    var url := "https://" + "vimeo.com/" + id;
    assert Text.OccursAt(url, "vimeo.com", 8) by {
      assert url[8..17] == "vimeo.com";
    }
    Text.AbsentIn("https://" + "vimeo.com/", id, "youtube.com", 0);
    Text.AbsentIn("https://" + "vimeo.com/", id, "youtu.be", 0);
    Text.ReplaceFirstAfter("https://", "vimeo.com/", id, "player.vimeo.com/video/", 0);
  }

  /** `demoVideoUrl && !imageUrl`: the video shows only in place of the
      image, so it and the carousel are never both on screen. */
  predicate ShowDemoVideo(p: Obj)
  {
    Truthy(Get(p, "demoVideoUrl")) && !Truthy(Get(p, "imageUrl"))
  }

  lemma DemoVideoExcludesImages(p: Obj)
    ensures ShowDemoVideo(p) ==> Images(p) == []
    ensures Images(p) != [] ==> !ShowDemoVideo(p)
  {
  }

  /** The live link as displayed: one leading `http://` or `https://` and
      one trailing `/` removed. */
  function LiveUrlLabel(url: string): (r: string)
    ensures exists pre, post :: pre in {"", "http://", "https://"} && post in {"", "/"} && url == pre + r + post
  {
    var pre := if Text.StartsWith(url, "https://") then "https://"
               else if Text.StartsWith(url, "http://") then "http://"
               else "";
    var rest := url[|pre|..];
    var post := if Text.EndsWith(rest, "/") then "/" else "";
    var r := rest[..|rest| - |post|];
    assert url == pre + rest;
    assert rest == r + post;
    assert pre in {"", "http://", "https://"} && post in {"", "/"} && url == pre + r + post;
    r
  }

  /** The label of an address with a scheme is the rest of it, without
      one trailing `/`. */
  lemma LiveUrlLabelOfSite(scheme: string, rest: string)
    requires scheme == "http://" || scheme == "https://"
    ensures LiveUrlLabel(scheme + rest) == if Text.EndsWith(rest, "/") then rest[..|rest| - 1] else rest
  {
    var u := scheme + rest;
    if scheme == "https://" {
      assert u[..8] == scheme && u[8..] == rest;
    } else {
      assert |u| < 8 || u[..8][4] != "https://"[4];
      assert u[..7] == scheme && u[7..] == rest;
    }
  }

  /** An address without a scheme keeps all of itself except one trailing
      `/`; with `LiveUrlLabelOfSite` this pins the label for every input. */
  lemma LiveUrlLabelNoScheme(url: string)
    requires !Text.StartsWith(url, "http://") && !Text.StartsWith(url, "https://")
    ensures LiveUrlLabel(url) == if Text.EndsWith(url, "/") then url[..|url| - 1] else url
  {
    assert url[0..] == url;
  }

  /** `project.role || 'Full-Stack Developer'`. */
  function RoleLabel(p: Obj): (r: JsVal)
    ensures Truthy(Get(p, "role")) ==> r == Get(p, "role")
    ensures !Truthy(Get(p, "role")) ==> r == Str("Full-Stack Developer")
    ensures Truthy(r)
  {
    Or(Get(p, "role"), Str("Full-Stack Developer"))
  }
}
