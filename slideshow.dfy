/**
 * SlideshowWidget: the full-screen slideshow. The navigation state is the
 * current and the awaited index, the running/paused/transitioning flags and
 * the two timers; images come back from the prefetch loader.
 */
module Slideshow {
  import opened Wrappers
  import opened Media
  import opened Prefetch
  import opened Config

  /** startSlideshow(startIndex): an index outside the list starts from the first image. */
  function StartIndex(startIndex: int, n: nat): (i: int)
    requires n > 0
    ensures 0 <= i < n
    ensures 0 <= startIndex < n ==> i == startIndex
    ensures i != startIndex ==> i == 0
  {
    if startIndex < 0 || startIndex >= n then 0 else startIndex
  }

  /**
   * nextSlide: the index after current, wrapping to the first image at the
   * end of the list in loop mode; None means the slideshow stops instead.
   */
  function NextTarget(current: int, n: nat, continuousLoop: bool): (t: Option<int>)
    ensures current + 1 < n ==> t == Some(current + 1)
    ensures current + 1 >= n ==> (t.Some? <==> continuousLoop)
    ensures t.Some? && current + 1 >= n ==> t.value == 0
    ensures current >= -1 && t.Some? && n > 0 ==> 0 <= t.value < n
  {
    if current + 1 < n then Some(current + 1)
    else if continuousLoop then Some(0)
    else None
  }

  /** prevSlide: the index before current, wrapping from the first image to the last. */
  function PrevTarget(current: int, n: nat): (t: int)
    ensures current >= 1 ==> t == current - 1
    ensures current <= 0 ==> t == n - 1
    ensures 0 <= current <= n && n > 0 ==> 0 <= t < n
  {
    if current - 1 < 0 then n - 1 else current - 1
  }

  /** What onImageLoaded does with an image that arrives. */
  datatype Arrival = ShowCurrent | BeginTransition | Ignore

  /**
   * The arrival check as written: it reads m_paths[m_currentIndex] while
   * the current image is missing, and m_paths[m_nextIndex] while an index
   * is awaited. None means one of those reads falls outside the list,
   * which QList leaves undefined.
   */
  function ImageLoadedAsWritten(paths: seq<string>, currentIndex: int, nextIndex: int, currentShown: bool, path: string): Option<Arrival>
  {
    var second :=
      if nextIndex == -1 then Some(Ignore)
      else if !(0 <= nextIndex < |paths|) then None
      else if path == paths[nextIndex] then Some(BeginTransition)
      else Some(Ignore);
    if !currentShown && paths != [] then
      if !(0 <= currentIndex < |paths|) then None
      else if path == paths[currentIndex] then Some(ShowCurrent)
      else second
    else second
  }

  /** The arrival check with both reads bounds-checked; the widget uses this one. */
  function ImageLoadedMatch(paths: seq<string>, currentIndex: int, nextIndex: int, currentShown: bool, path: string): Arrival
  {
    if !currentShown && 0 <= currentIndex < |paths| && path == paths[currentIndex] then ShowCurrent
    else if 0 <= nextIndex < |paths| && path == paths[nextIndex] then BeginTransition
    else Ignore
  }

  /**
   * Wherever the check as written is defined, the corrected one agrees with
   * it; and it is undefined exactly when a read it makes is out of range.
   */
  lemma ImageLoadedAgreesWhereDefined(paths: seq<string>, currentIndex: int, nextIndex: int, currentShown: bool, path: string)
    ensures var w := ImageLoadedAsWritten(paths, currentIndex, nextIndex, currentShown, path);
      w.Some? ==> w.value == ImageLoadedMatch(paths, currentIndex, nextIndex, currentShown, path)
    ensures 0 <= currentIndex < |paths| && (nextIndex == -1 || 0 <= nextIndex < |paths|) ==>
      ImageLoadedAsWritten(paths, currentIndex, nextIndex, currentShown, path).Some?
    ensures !currentShown && paths != [] && !(0 <= currentIndex < |paths|) ==>
      ImageLoadedAsWritten(paths, currentIndex, nextIndex, currentShown, path).None?
  {
  }

  /** updateAnimation: the opacity step per 16 ms frame. */
  function AnimationStep(transitionTime: real): (step: real)
    ensures step > 0.0
    ensures transitionTime > 0.0 ==> step * transitionTime == 0.016
    ensures transitionTime <= 0.0 ==> step == 1.0
  {
    0.016 / (if transitionTime > 0.0 then transitionTime else 0.016)
  }

  /** The widget's state, apart from the loader it owns. */
  datatype View = View(
    paths: seq<string>,
    currentIndex: int,
    nextIndex: int,
    currentImage: Option<Image>,
    nextImage: Option<Image>,
    running: bool,
    paused: bool,
    isTransitioning: bool,
    opacity: real,
    slideTimer: bool,
    animationTimer: bool)

  /**
   * One updateAnimation frame on the widget's state: outside a fade the
   * animation timer stops; during one the opacity grows by the step, and on
   * reaching 1 the awaited image becomes current.
   */
  function Frame(v: View, step: real): View
  {
    if !v.isTransitioning then v.(animationTimer := false)
    else if v.opacity + step >= 1.0 then
      v.(opacity := 1.0, isTransitioning := false, animationTimer := false,
         currentIndex := v.nextIndex, currentImage := v.nextImage, nextImage := None, nextIndex := -1,
         slideTimer := v.slideTimer || (v.running && !v.paused))
    else v.(opacity := v.opacity + step)
  }

  /** The state after k frames with no other event in between. */
  function Frames(v: View, step: real, k: nat): View
    decreases k
  {
    if k == 0 then v else Frames(Frame(v, step), step, k - 1)
  }

  /** A fade that n + 1 steps carry past opacity 1 ends within n + 1 frames. */
  lemma {:induction false} FadeEndsWithin(v: View, step: real, n: nat) returns (k: nat)
    requires v.isTransitioning && step > 0.0
    requires v.opacity + (n as real + 1.0) * step >= 1.0
    ensures 1 <= k <= n + 1
    ensures forall j :: 0 <= j < k ==> Frames(v, step, j).isTransitioning
    ensures var w := Frames(v, step, k);
      && !w.isTransitioning && w.opacity == 1.0 && w.nextIndex == -1
      && w.currentIndex == v.nextIndex && w.currentImage == v.nextImage
    decreases n
  {
    if v.opacity + step >= 1.0 {
      k := 1;
      assert Frames(v, step, 1) == Frames(Frame(v, step), step, 0);
    } else {
      assert n >= 1;
      var u := Frame(v, step);
      assert u.opacity + ((n - 1) as real + 1.0) * step == v.opacity + (n as real + 1.0) * step;
      var k' := FadeEndsWithin(u, step, n - 1);
      k := k' + 1;
      assert Frames(v, step, k) == Frames(u, step, k');
      forall j | 0 <= j < k
        ensures Frames(v, step, j).isTransitioning
      {
        if j > 0 {
          assert Frames(v, step, j) == Frames(u, step, j - 1);
        }
      }
    }
  }

  /**
   * With a positive step and no other event in between, a fade that has
   * started ends after finitely many frames, and the awaited image is then
   * the current one.
   */
  lemma TransitionCompletes(v: View, step: real) returns (frames: nat)
    requires v.isTransitioning && step > 0.0
    ensures frames >= 1
    ensures forall j :: 0 <= j < frames ==> Frames(v, step, j).isTransitioning
    ensures var w := Frames(v, step, frames);
      && !w.isTransitioning && w.opacity == 1.0 && w.nextIndex == -1
      && w.currentIndex == v.nextIndex && w.currentImage == v.nextImage
  {
    if v.opacity >= 1.0 {
      frames := FadeEndsWithin(v, step, 0);
    } else {
      var x := (1.0 - v.opacity) / step;
      var n: nat := x.Floor;
      var m := n as real + 1.0;
      assert m * step > 1.0 - v.opacity by {
        assert x * step == 1.0 - v.opacity;
        assert m > x;
      }
      frames := FadeEndsWithin(v, step, n);
    }
  }

  class SlideshowWidget {
    var paths: seq<string>
    var currentIndex: int
    var nextIndex: int
    /** m_currentImage and m_nextImage; None is a null QImage. */
    var currentImage: Option<Image>
    var nextImage: Option<Image>
    var running: bool
    var paused: bool
    var isTransitioning: bool
    var opacity: real
    /** Whether the single-shot slide timer and the 16 ms animation timer are running. */
    var slideTimer: bool
    var animationTimer: bool
    /** size(), the size every request asks for. */
    const viewSize: Size
    const loader: ImageCacheLoader

    function State(): View
      reads this
    {
      View(paths, currentIndex, nextIndex, currentImage, nextImage, running, paused,
        isTransitioning, opacity, slideTimer, animationTimer)
    }

    /** An index is awaited in every transition, and its image has arrived. */
    predicate Coherent()
      reads this
    {
      nextIndex >= -1 && (isTransitioning ==> nextIndex >= 0 && nextImage.Some?)
    }

    /** The state startSlideshow leaves: running from an index of the list, nothing awaited. */
    predicate Started()
      reads this
    {
      running && !paused && !isTransitioning && nextIndex == -1 && 0 <= currentIndex < |paths|
    }

    constructor (size: Size)
      ensures State() == View([], -1, -1, None, None, false, false, false, 0.0, false, false)
      ensures viewSize == size && fresh(loader) && loader.queue == []
      ensures Coherent()
    {
      paths := [];
      currentIndex := -1;
      nextIndex := -1;
      currentImage := None;
      nextImage := None;
      running := false;
      paused := false;
      isTransitioning := false;
      opacity := 0.0;
      slideTimer := false;
      animationTimer := false;
      viewSize := size;
      loader := new ImageCacheLoader();
    }

    /** setImagePaths: only the list changes, the indices are kept. */
    method SetImagePaths(newPaths: seq<string>)
      modifies this
      ensures State() == old(State()).(paths := newPaths)
      ensures old(Coherent()) ==> Coherent()
    {
      paths := newPaths;
    }

    /** startSlideshow(startIndex): nothing happens on an empty list. */
    method StartSlideshow(startIndex: int)
      modifies this, loader
      ensures old(paths) == [] ==> State() == old(State()) && loader.queue == old(loader.queue)
      ensures old(paths) != [] ==>
        var i := StartIndex(startIndex, |old(paths)|);
        && State() == old(State()).(currentIndex := i, nextIndex := -1, currentImage := None, nextImage := None,
             running := true, paused := false, isTransitioning := false, opacity := 0.0, slideTimer := true)
        && loader.queue == Submit(old(loader.queue), Request(old(paths)[i], viewSize))
      ensures old(paths) != [] ==> Started() && Coherent()
    {
      if paths == [] {
        return;
      }
      var i := if startIndex < 0 || startIndex >= |paths| then 0 else startIndex;
      BeginAt(i);
      loader.RequestImage(paths[currentIndex], viewSize);
      slideTimer := true;
    }

    /** The part of startSlideshow that resets the widget to show index i. */
    method BeginAt(i: int)
      modifies this
      ensures State() == old(State()).(currentIndex := i, nextIndex := -1, currentImage := None, nextImage := None,
        running := true, paused := false, isTransitioning := false, opacity := 0.0)
    {
      currentIndex := i;
      running := true;
      paused := false;
      isTransitioning := false;
      opacity := 0.0;
      currentImage := None;
      nextImage := None;
      nextIndex := -1;
    }

    /** stopSlideshow: the loader thread keeps running. */
    method StopSlideshow()
      modifies this
      ensures State() == old(State()).(running := false, slideTimer := false, animationTimer := false)
      ensures old(Coherent()) ==> Coherent()
    {
      running := false;
      slideTimer := false;
      animationTimer := false;
    }

    /** pause: always paused afterwards, with both timers frozen. */
    method Pause()
      modifies this
      ensures State() == old(State()).(paused := true, slideTimer := false, animationTimer := false)
      ensures old(Coherent()) ==> Coherent()
    {
      paused := true;
      slideTimer := false;
      animationTimer := false;
    }

    /** resume: only a paused slideshow resumes, restarting the timer of its phase. */
    method Resume()
      modifies this
      ensures !old(paused) ==> State() == old(State())
      ensures old(paused) && !isTransitioning ==> State() == old(State()).(paused := false, slideTimer := true)
      ensures old(paused) && isTransitioning ==> State() == old(State()).(paused := false, animationTimer := true)
      ensures old(Coherent()) ==> Coherent()
    {
      if paused {
        paused := false;
        if !isTransitioning {
          slideTimer := true;
        } else {
          animationTimer := true;
        }
      }
    }

    /** transitionToImage(index): an index outside the list is ignored. */
    method TransitionToImage(index: int)
      modifies this, loader
      ensures !(0 <= index < |old(paths)|) ==> State() == old(State()) && loader.queue == old(loader.queue)
      ensures 0 <= index < |old(paths)| ==>
        State() == old(State()).(nextIndex := index)
        && loader.queue == Submit(old(loader.queue), Request(old(paths)[index], viewSize))
      ensures old(Coherent()) ==> Coherent()
    {
      if index < 0 || index >= |paths| {
        return;
      }
      nextIndex := index;
      loader.RequestImage(paths[nextIndex], viewSize);
    }

    /**
     * nextSlide: ignored on an empty list and unless running and not paused;
     * at the end of the list it wraps in loop mode and stops otherwise.
     */
    method NextSlide(config: ConfigManager)
      modifies this, loader
      ensures old(paths == [] || !running || paused) ==> State() == old(State()) && loader.queue == old(loader.queue)
      ensures old(paths != [] && running && !paused) ==>
        match NextTarget(old(currentIndex), |old(paths)|, config.continuousLoop)
        case None =>
          State() == old(State()).(running := false, slideTimer := false, animationTimer := false)
          && loader.queue == old(loader.queue)
        case Some(t) =>
          if t >= 0 then
            State() == old(State()).(nextIndex := t)
            && t < |old(paths)|
            && loader.queue == Submit(old(loader.queue), Request(old(paths)[t], viewSize))
          else State() == old(State()) && loader.queue == old(loader.queue)
      ensures old(Coherent()) ==> Coherent()
    {
      if paths == [] || !running || paused {
        return;
      }
      var next := currentIndex + 1;
      if next >= |paths| {
        if config.continuousLoop {
          next := 0;
        } else {
          StopSlideshow();
          return;
        }
      }
      TransitionToImage(next);
    }

    /** prevSlide: manual, so not gated on running or paused; wraps from the first image to the last. */
    method PrevSlide()
      modifies this, loader
      ensures old(paths) == [] ==> State() == old(State()) && loader.queue == old(loader.queue)
      ensures old(paths) != [] ==>
        var t := PrevTarget(old(currentIndex), |old(paths)|);
        if 0 <= t < |old(paths)| then
          State() == old(State()).(nextIndex := t)
          && loader.queue == Submit(old(loader.queue), Request(old(paths)[t], viewSize))
        else State() == old(State()) && loader.queue == old(loader.queue)
      ensures old(Coherent()) ==> Coherent()
    {
      if paths == [] {
        return;
      }
      var prev := currentIndex - 1;
      if prev < 0 {
        prev := |paths| - 1;
      }
      TransitionToImage(prev);
    }

    /**
     * onImageLoaded(path, image): the missing current image is shown, the
     * awaited next image starts the cross-fade, anything else is dropped.
     */
    method OnImageLoaded(path: string, image: Image)
      modifies this
      ensures match ImageLoadedMatch(old(paths), old(currentIndex), old(nextIndex), old(currentImage).Some?, path)
        case ShowCurrent => State() == old(State()).(currentImage := Some(image))
        case BeginTransition =>
          State() == old(State()).(nextImage := Some(image), isTransitioning := true, opacity := 0.0, animationTimer := true)
        case Ignore => State() == old(State())
      ensures paths == old(paths) && currentIndex == old(currentIndex) && nextIndex == old(nextIndex)
      ensures old(currentImage).None? && 0 <= currentIndex < |paths| && path == paths[currentIndex] ==>
        currentImage == Some(image)
      ensures currentImage != old(currentImage) ==>
        currentImage == Some(image) && 0 <= currentIndex < |paths| && paths[currentIndex] == path
      ensures (&& (old(currentImage).Some? || !(0 <= currentIndex < |paths| && path == paths[currentIndex]))
               && 0 <= nextIndex < |paths| && path == paths[nextIndex]) ==>
        nextImage == Some(image) && isTransitioning && opacity == 0.0
      ensures nextImage != old(nextImage) || (isTransitioning && !old(isTransitioning)) ==>
        nextImage == Some(image) && 0 <= nextIndex < |paths| && paths[nextIndex] == path
      ensures old(Coherent()) ==> Coherent()
    {
      if currentImage.None? && 0 <= currentIndex < |paths| && path == paths[currentIndex] {
        currentImage := Some(image);
        return;
      }
      if nextIndex != -1 && 0 <= nextIndex < |paths| && path == paths[nextIndex] {
        nextImage := Some(image);
        isTransitioning := true;
        opacity := 0.0;
        animationTimer := true;
      }
    }

    /**
     * updateAnimation: one frame of the cross-fade. When the opacity
     * reaches 1 the awaited image becomes current, and the slide timer
     * restarts only if the slideshow runs and is not paused.
     */
    method UpdateAnimation(config: ConfigManager)
      modifies this
      ensures !old(isTransitioning) ==> State() == old(State()).(animationTimer := false)
      ensures old(isTransitioning) && old(opacity) + AnimationStep(config.transitionTime) < 1.0 ==>
        State() == old(State()).(opacity := old(opacity) + AnimationStep(config.transitionTime))
      ensures old(isTransitioning) && old(opacity) + AnimationStep(config.transitionTime) >= 1.0 ==>
        State() == old(State()).(opacity := 1.0, isTransitioning := false, animationTimer := false,
          currentIndex := old(nextIndex), currentImage := old(nextImage), nextImage := None, nextIndex := -1,
          slideTimer := old(slideTimer) || (old(running) && !old(paused)))
      ensures old(Coherent()) && old(isTransitioning) && !isTransitioning ==> currentIndex >= 0 && currentImage.Some?
      ensures State() == Frame(old(State()), AnimationStep(config.transitionTime))
      ensures old(Coherent()) ==> Coherent()
    {
      if !isTransitioning {
        animationTimer := false;
        return;
      }
      opacity := opacity + AnimationStep(config.transitionTime);
      if opacity >= 1.0 {
        FinishFade();
      }
    }

    /** The end of a cross-fade: the awaited image becomes current. */
    method FinishFade()
      modifies this
      ensures State() == old(State()).(opacity := 1.0, isTransitioning := false, animationTimer := false,
          currentIndex := old(nextIndex), currentImage := old(nextImage), nextImage := None, nextIndex := -1,
          slideTimer := old(slideTimer) || (old(running) && !old(paused)))
    {
      opacity := 1.0;
      isTransitioning := false;
      animationTimer := false;
      currentIndex := nextIndex;
      currentImage := nextImage;
      nextImage := None;
      nextIndex := -1;
      if running && !paused {
        slideTimer := true;
      }
    }
  }

  /**
   * The arrival check as written misbehaves on a reachable state: with the
   * slideshow page shown but never started, Left calls prevSlide, which
   * requests the last image while m_currentIndex is still -1; when it
   * arrives, the check reads m_paths[-1]. The corrected check starts the
   * cross-fade to it.
   */
  method PrevSlideBeforeStart(p: string, image: Image) returns (asWritten: Option<Arrival>, corrected: Arrival)
    ensures asWritten == None
    ensures corrected == BeginTransition
  {
    var w := new SlideshowWidget(Size(800, 600));
    w.SetImagePaths([p]);
    w.PrevSlide();
    assert w.currentIndex == -1 && w.nextIndex == 0 && w.currentImage == None;
    asWritten := ImageLoadedAsWritten(w.paths, w.currentIndex, w.nextIndex, w.currentImage.Some?, p);
    corrected := ImageLoadedMatch(w.paths, w.currentIndex, w.nextIndex, w.currentImage.Some?, p);
    w.OnImageLoaded(p, image);
    assert w.isTransitioning && w.nextImage == Some(image);
  }
}
