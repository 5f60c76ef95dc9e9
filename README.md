# Portfolio interaction core, modelled in Dafny

This project models the three parts of the portfolio web site that follow
rules rather than layout. Each part is one Dafny module in its own file:

- **particle_field.dfy**, module `ParticleField`, models the particle field behind the page. The canvas is a class
  `Field` with its dimensions and an array of particle records:
  - `Init` creates 50 (mobile) or 150 particles from random draws.
  - `Resize` follows the viewport.
  - `Tick` updates every particle in place: drift by its speed, wrap at the canvas edges, and, while the
    pointer hovers, a positional nudge and a doubled alpha inside a 200 px radius.
  - `Connections` is the nested pair loop. It selects the pairs closer than 100 px and the opacity of
    their lines.

  Each method is proved against pure functions (`NewParticle`, `StepParticle`, `Links`). The lemmas state
  what those functions guarantee.
- **projects_section.dfy**, module `ProjectsSection`, models the featured-project carousel:
  - the project list and its split into the carousel (featured) and the grid (the others);
  - the index arithmetic of the next and previous buttons, including JavaScript's remainder;
  - the `Carousel` class with the `activeIndex`/`direction` state and the three handlers.
- **animated_counter.dfy**, module `AnimatedCounter`, models the animated counter:
  - the clamped progress and the floored count of each frame;
  - the `Counter` class, whose effect starts the animation at most once and whose `Step` captures the start
    time, shows the count, and either asks for another frame or finishes.

Positions, alphas and times are exact reals. The random draws, the pointer position, the viewport size and
the frame timestamps are inputs. `Math.sqrt` is an input function `sqrt` constrained by `IsSqrt`: it returns
the non-negative root of every non-negative real. All distance comparisons are proved on squared distances.

Three details of the code are easy to misread:

- The hover nudge adds `(particle − pointer) × force`, so it pushes particles away from the pointer, not
  toward it (`NudgeMovesAway`).
- A particle that crosses an edge is wrapped in the same frame. For example, the particle at (5, 300) with
  speed −0.15 is at 0.05 after 33 frames and exactly at 800 after 34 (`WrapToFarEdge`); it never shows a
  negative x.
- Zero canvas dimensions are not treated specially: particles are created at coordinate 0.

## Model

| member | source | states |
|---|---|---|
| ParticleField.NewParticle | src/components/canvas/particle-field.tsx:53-66 | a particle made from draws in [0,1) has size in [1,3), alpha and originalAlpha equal and in [0.1,0.6), speeds in [-0.15,0.15), colour white, and a position on the canvas (strictly inside when the dimension is positive) |
| ParticleField.Wrap | src/components/canvas/particle-field.tsx:106-110 | a coordinate past the far edge goes to 0; one below 0 goes to the far edge; one in [0,bound] is kept; so every result lies in [0,bound] |
| ParticleField.Drift | src/components/canvas/particle-field.tsx:101-110 | drift plus wrap changes only x and y, each axis independently, and leaves the particle inside [0,width]×[0,height] (the far edge included) |
| ParticleField.Force | src/components/canvas/particle-field.tsx:117-120 | inside the 200 px radius the nudge fraction lies in (0, 0.2], and is 0.2 at distance 0 |
| ParticleField.Interact | src/components/canvas/particle-field.tsx:112-129 | only x, y and alpha change; alpha is twice originalAlpha exactly when hovering and the squared pointer distance is below 200², with no clamping, else originalAlpha; outside that case the position is unchanged |
| ParticleField.NudgeShape | src/components/canvas/particle-field.tsx:114-122 | inside the radius the position moves by (particle − pointer) × Force(d), with d the distance to the pointer in [0,200) |
| ParticleField.NudgeMovesAway | src/components/canvas/particle-field.tsx:114-122 | the nudge never brings a particle closer to the pointer, and moves it by at most a fifth of its distance to it |
| ParticleField.StepParticle | src/components/canvas/particle-field.tsx:100-130 | a frame update keeps size, speeds, colour and originalAlpha, keeps the creation ranges, resets alpha without hover, and applies the hover rule to the wrapped position, with the pointer at (mouseX·width, mouseY·height) |
| ParticleField.DriftLeft | src/components/canvas/particle-field.tsx:102-107 | the particle at (5,300) with speed (−0.15,0) on 800×600 without hover is at 5 − 0.15k after k ≤ 33 frames |
| ParticleField.WrapToFarEdge | src/components/canvas/particle-field.tsx:106-107 | the same particle is at 0.05 after 33 frames and at exactly 800 after 34 |
| ParticleField.LineOpacity | src/components/canvas/particle-field.tsx:150-151 | a line between particles closer than 100 has opacity in (0, 0.2], and 0.2 for coincident particles |
| ParticleField.RowLinksIndices | src/components/canvas/particle-field.tsx:145-155 | the inner loop for i emits only links (i, j') with i < j' below its bound |
| ParticleField.RowLinksOk | src/components/canvas/particle-field.tsx:145-155 | every link of the inner loop joins close particles and carries their line opacity |
| ParticleField.RowLinksExact | src/components/canvas/particle-field.tsx:145-155 | the inner loop for i links (i, b) exactly when the two particles are close |
| ParticleField.RowLinksOrdered | src/components/canvas/particle-field.tsx:145-155 | the inner loop emits its links in increasing second index |
| ParticleField.LinksBelowIndices | src/components/canvas/particle-field.tsx:144-156 | after the outer loop's first i rows, every link starts below i and joins two distinct particles in index order |
| ParticleField.LinksBelowOk | src/components/canvas/particle-field.tsx:144-156 | every link of the first i rows joins close particles with their line opacity |
| ParticleField.LinksBelowExact | src/components/canvas/particle-field.tsx:144-156 | within the first i rows a pair (a, b) with a < b is linked exactly when close |
| ParticleField.LinksBelowOrdered | src/components/canvas/particle-field.tsx:144-156 | the first i rows emit their links in strictly increasing (i, j) order |
| ParticleField.ConnectionPairs | src/components/canvas/particle-field.tsx:144-156 | each unordered pair is visited once: (a, b) with a < b is linked exactly when the particles are closer than 100; (b, a) and (a, a) never are; every opacity is (1 − d/100)·0.2 in (0, 0.2]; the links come in strictly increasing order |
| ParticleField.TwoParticlesLink | src/components/canvas/particle-field.tsx:144-151 | two particles 50 apart give the single link (0, 1) with opacity 0.1 |
| ParticleField.StrokeOpacity | src/components/canvas/particle-field.tsx:140-158 | the single stroke after the pair loop draws every line with the opacity of the last link selected, or with the earlier opacity when no link was selected |
| ParticleField.SharedStrokeLosesOpacity | src/components/canvas/particle-field.tsx:150-158 | once two selected links differ in opacity, some line is drawn with an opacity other than its own |
| ParticleField.ThreeParticleStroke | src/components/canvas/particle-field.tsx:144-158 | particles at (0,0), (50,0), (0,90) give links (0,1) at 0.1 and (0,2) at 0.02, and both lines are stroked at 0.02 |
| ParticleField.Field.constructor | src/components/canvas/particle-field.tsx:29 | a new field holds no particles |
| ParticleField.Field.Resize | src/components/canvas/particle-field.tsx:41-47 | the canvas takes the viewport's dimensions; the particle array and every particle are unchanged |
| ParticleField.Field.Init | src/components/canvas/particle-field.tsx:33-67 | without a canvas or context nothing changes; otherwise the canvas is sized to the viewport and the particles are replaced by a new array of exactly 50 (mobile) or 150, particle i being NewParticle of the i-th draws |
| ParticleField.Field.Tick | src/components/canvas/particle-field.tsx:100-130 | the particle count is kept and every particle i becomes StepParticle of its old value; the creation ranges are preserved |
| ParticleField.Field.Connections | src/components/canvas/particle-field.tsx:144-158 | the nested loop emits exactly Links of the current particles (see ConnectionPairs), and the opacity in effect at the stroke is StrokeOpacity of those links |
| ParticleField.Field.ConnectRow | src/components/canvas/particle-field.tsx:145-155 | the inner loop for particle i appends exactly RowLinks for i, and the opacity it leaves is StrokeOpacity of the links so far |
| ParticleField.Field.Animate | src/components/canvas/particle-field.tsx:96-162 | one frame updates every particle, then selects the links among the updated particles and strokes them at StrokeOpacity of those links |
| ProjectsSection.Filter | src/components/sections/projects-section.tsx:90 | the filtered list is no longer than the list and holds only projects with the requested flag |
| ProjectsSection.FilterAppend | src/components/sections/projects-section.tsx:90 | filtering distributes over concatenation, so the original order is kept |
| ProjectsSection.FilterCount | src/components/sections/projects-section.tsx:90 | a project occurs in the filtered list as often as in the list when its flag matches, and never otherwise |
| ProjectsSection.FilterUniform | src/components/sections/projects-section.tsx:90 | a list whose projects all match is kept whole; one with no match gives the empty list |
| ProjectsSection.Partition | src/components/sections/projects-section.tsx:314-316 | the carousel list and the grid list together are a permutation of the project list and share no project |
| ProjectsSection.SiteLists | src/components/sections/projects-section.tsx:16-83 | on the site's list the carousel holds projects 1–3 in order and the grid projects 4–6 |
| ProjectsSection.JsRem | src/components/sections/projects-section.tsx:104 | JavaScript's remainder: magnitude below n, sign of the dividend, a small dividend returned as it is, one in [n, 2n) reduced by n |
| ProjectsSection.NextIndex | src/components/sections/projects-section.tsx:102-105 | from an index in [0,n) the next index stays in [0,n): one more, or 0 after the last |
| ProjectsSection.PrevIndex | src/components/sections/projects-section.tsx:107-112 | from an index in [0,n) the previous index stays in [0,n): one less, or n − 1 before the first |
| ProjectsSection.NextPrevInverse | src/components/sections/projects-section.tsx:102-112 | next then previous, and previous then next, restore the index |
| ProjectsSection.AdvanceShift | src/components/sections/projects-section.tsx:102-105 | k presses of next move the index to (i + k) mod n |
| ProjectsSection.FullCycle | src/components/sections/projects-section.tsx:102-105 | n presses of next return to the starting index |
| ProjectsSection.DotDirection | src/components/sections/projects-section.tsx:291 | a dot click heads right (1) exactly when its index is above the active one, else left (−1) |
| ProjectsSection.Carousel.constructor | src/components/sections/projects-section.tsx:88-90 | the carousel starts on index 0 with direction 0, over the three featured projects |
| ProjectsSection.Carousel.Active | src/components/sections/projects-section.tsx:227 | the project on display is one of the featured projects |
| ProjectsSection.Carousel.Next | src/components/sections/projects-section.tsx:102-105 | direction becomes 1 and the index becomes NextIndex of the old one, staying in range |
| ProjectsSection.Carousel.Prev | src/components/sections/projects-section.tsx:107-112 | direction becomes −1 and the index becomes PrevIndex of the old one, staying in range |
| ProjectsSection.Carousel.GoTo | src/components/sections/projects-section.tsx:290-293 | the index becomes the clicked one, and the direction is 1 if it lies above the old index, else −1 |
| ProjectsSection.NextThenPrev | src/components/sections/projects-section.tsx:102-112 | pressing next then previous shows the same project again, heading left |
| AnimatedCounter.Progress | src/components/animations/animated-counter.tsx:24 | progress never exceeds 1, is non-negative once the timestamp has reached the start, equals 1 exactly when the duration has elapsed, and is otherwise the elapsed fraction |
| AnimatedCounter.ProgressMonotone | src/components/animations/animated-counter.tsx:24 | a later timestamp never gives a smaller progress |
| AnimatedCounter.CurrentCount | src/components/animations/animated-counter.tsx:25 | progress 0 shows from, progress 1 shows to exactly, and any progress in [0,1] shows a number between from and to (either direction) |
| AnimatedCounter.CountMonotone | src/components/animations/animated-counter.tsx:25 | counting up, a larger progress never shows a smaller number |
| AnimatedCounter.Counter.constructor | src/components/animations/animated-counter.tsx:11-14 | a mounted counter shows from and has not animated |
| AnimatedCounter.Counter.Effect | src/components/animations/animated-counter.tsx:16-20 | the pending frame is cancelled; a new animation, with its start time reset, is scheduled exactly when the element is in view and has not animated; the count is untouched |
| AnimatedCounter.Counter.Step | src/components/animations/animated-counter.tsx:22-34 | the start time is captured on the first frame and then kept; the count is CurrentCount of the progress; another frame is scheduled exactly when progress < 1, and hasAnimated is set exactly when it reaches 1 |
| AnimatedCounter.Counter.Play | src/components/animations/animated-counter.tsx:22-36 | the frame loop stops only by finishing, finishing shows to, and it finishes once a frame is at least the duration after a non-zero first frame |

## Findings

| source | as written | input that shows it | evidently intended | confidence | as-written member | corrected member |
|---|---|---|---|---|---|---|
| src/components/canvas/particle-field.tsx:150-158 | each close pair sets `globalAlpha` and adds a segment to one shared path, and a single `stroke()` after the loop draws every segment with the opacity set last | particles at (0,0), (50,0), (0,90): the lines (0,1) and (0,2) should have opacities 0.1 and 0.02, and both are stroked at 0.02 | each line drawn with its own opacity `(1 − d/100)·0.2` | high, not executed | ParticleField.ThreeParticleStroke | ParticleField.ConnectionPairs |

The corrected behaviour is the one modelled by `Links` and `Field.Connections`: each link carries its own
opacity, and `ConnectionPairs` proves that opacity is the one of its own distance.

## Left out

- Canvas drawing (`clearRect`, `arc`, `fill`, `moveTo`, `lineTo`, `stroke`, the final `globalAlpha` reset):
  the model produces the particles and the selected links with their opacities as data. The only drawing
  rule modelled is the shared stroke in the finding above.
- Scheduling and event plumbing:
  - `requestAnimationFrame`/`cancelAnimationFrame`, the resize and pointer listeners, and the `onChange`
    subscriptions with their cleanup are left out.
  - A frame is a call to `Field.Animate` or `Counter.Step`.
  - A resize is a call to `Field.Resize`.
  - Pointer values are parameters. The 0.5 starting values of the pointer are whatever the caller passes.
- `Math.random`: the six draws per particle are inputs in [0,1), taken in the order the code draws them.
  `Math.sqrt` is the `sqrt` parameter constrained by `IsSqrt`.
- IEEE-754 rounding, NaN and infinities: all arithmetic is exact (`real`/`int`).
- ParticleField.Field.Init: `surfaceReady` stands for both the canvas and the 2D context being present. The
  canvas dimensions are the viewport's, as naturals.
- AnimatedCounter.Progress: requires a positive duration. The component defaults it to 2, and a duration of
  0 would divide by zero and give NaN in JavaScript.
- AnimatedCounter.CurrentCount: `from` and `to` are integers, as at every use of the counter. Non-integer
  bounds are not modelled.
- AnimatedCounter.Counter: the closure-local `startTime`, undefined until the first frame, is `0.0`. This
  matches the code's falsy test, which also treats a frame at timestamp 0 as uncaptured.
- ProjectsSection.NextIndex: requires a non-empty carousel. With no featured project, JavaScript's `% 0`
  would give NaN. The site always has three.
- ProjectsSection.Carousel.GoTo: the clicked index is required to be a dot's index, as every dot of the
  rendered list provides.
- ProjectsSection.Project: descriptions, images, tags and links are presentational and not modelled.
- The pointer spring smoothing (`useSpring`), every scroll-driven `useTransform`/`useScroll` interpolation,
  the JSX layout and the other sections, components and helpers of the site are not part of this model.
