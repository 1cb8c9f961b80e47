# Portfolio site: particle background and contact form, modelled in Dafny

The portfolio is a React site that is almost entirely presentational. Two
pieces of it hold real logic, and this project models those two and proves
properties about them.

**The particle-network background of the home page** (`Home.js`). A canvas
holds a population of particles. On every resize the population is rebuilt
with `max(20, floor(width*height/12000))` particles of random size, position
and velocity. On every animation frame each particle does three things in
order:

- it moves by its velocity;
- it reflects a velocity component whose new coordinate is off the canvas;
- it grows by 1 (capped at 4 x its base size) while the pointer is within 120
  px, or shrinks by 0.3 while the pointer is present but farther away and its
  size is above its base size.

After that, every pair of particles closer than 100 px is joined by a line
whose alpha is `1 - dist/100`. Mouse, touch and leave handlers keep the last
pointer position relative to the canvas. The effect does nothing on
viewports of 480 px or narrower, or when there is no canvas.

**The contact form** (`Contact.js`). A field edit replaces one field. A
submit does these steps in order:

- it clears the status;
- it rejects a blank field ("All fields are required.");
- it then rejects a malformed address ("Invalid email address."), using the
  pattern `^[^\s@]+@[^\s@]+\.[^\s@]+$` on the trimmed input;
- otherwise it sends the browser to
  `mailto:anurudhs567@gmail.com?subject=…&body=…`, whose header fields follow
  section 2 of RFC 6068.

A timer then empties the form and reports success.

Files:

- `particle_model.dfy` (module `ParticleModel`) holds the value-level
  specification: particle state, one frame of one particle (`Step`), a whole
  frame (`TickAll`), many frames (`Evolve`), seeding (`ParticleCount`,
  `Population`) and the pair scan (`Links`). It also holds the lemmas about
  them.
- `particle_engine.dfy` (module `ParticleEngine`) is the imperative code as
  it runs. `Particle` objects are updated in place. A `Tracker` is overwritten
  by the input handlers. An `Engine` owns the dimensions and the live particle
  list. Its methods are proved against `ParticleModel`.
- `contact_rules.dfy` (module `ContactRules`) holds JavaScript whitespace,
  `trim`, the e-mail pattern, the ordered field checks and the mailto: URI,
  with a parser for the URI as its inverse.
- `contact_form.dfy` (module `ContactPage`) holds the form state as a class,
  with methods for field edit, submit and timer completion.
- `wrappers.dfy` holds `Option`.

Arithmetic is exact (`real`). `Math.hypot(a, b) < r` is modelled as
`a*a + b*b < r*r`; `SquareMonotone` shows the two agree for non-negative
distances. The random numbers, the canvas measurements, the bounding
rectangle and the URI encoder are parameters.

## Code and design description

The system's design description and the code differ in two places, and in
both the model follows the code:

- The design says a particle's size decays "floored at baseSize" and that
  `baseSize <= size` always holds. The code (`Home.js:270`) subtracts 0.3
  whenever `size > baseSize`, with no floor. `DecayUndershoots` shows a size
  of 1.1 with base size 1.0 dropping to 0.8. The invariant the code does keep
  is `baseSize - 0.3 < size <= 4 * baseSize` (`SizeInv`). That is what
  `Particle.Update`, `Engine.Valid` and `EvolveKeepsInvariants` preserve.
- The design's example of a particle at x = 0 with dx = -0.4 expects
  `x >= 0` after one frame. Because the reflection is checked after the
  move, x is -0.4 after one frame and 0 after the next (`LeftEdgeReflection`).
  The bound that does hold is `AxisInv`: a coordinate is inside the canvas,
  or at most one frame's travel outside it and already heading back.

The design description places the contact form outside the particle engine.
It is modelled here as a second, independent part.

## Model

| member | source | states |
|---|---|---|
| `ParticleModel.ParticleCount` | frontend/src/pages/Home.js:278 | the count is at least 20; above 20 it is the largest n with n*12000 <= width*height; it is 20 exactly when width*height < 21*12000 |
| `ParticleModel.ParticleCountExamples` | frontend/src/pages/Home.js:278 | a 1200x800 canvas gets 80 particles; an empty or 400x500 canvas gets the floor of 20 |
| `ParticleModel.SpawnRanges` | frontend/src/pages/Home.js:280-285 | a new particle has baseSize == size in [1, 4), velocity components in [-0.6, 0.6), keeps the size bounds, and starts inside [size, dim - size] on each axis at least twice its size |
| `ParticleModel.InsetWithin` | frontend/src/pages/Home.js:281-282 | a coordinate drawn as r*(dim - 2*size) + size with r in [0, 1) lies in [size, dim - size] whenever dim >= 2*size |
| `ParticleModel.PopulationFacts` | frontend/src/pages/Home.js:279-286 | a seeding of n draws gives n particles, each with baseSize == size and within the size bounds |
| `ParticleModel.StepMotion` | frontend/src/pages/Home.js:263-266 | one frame moves the position by exactly (dx, dy); a velocity component is negated when the new coordinate is off the canvas and kept otherwise; its magnitude never changes; baseSize is unchanged |
| `ParticleModel.StepPointerRule` | frontend/src/pages/Home.js:267-270 | with no pointer, size is unchanged; with the pointer within the radius, size becomes min(4*baseSize, size+1); with the pointer farther, size drops by exactly 0.3 if and only if it was above baseSize, and is unchanged otherwise |
| `ParticleModel.StepKeepsSizeInv` | frontend/src/pages/Home.js:267-270 | one frame preserves baseSize - 0.3 < size <= 4*baseSize |
| `ParticleModel.BounceKeepsAxisInv` | frontend/src/pages/Home.js:263-266 | the reflect-after-move rule keeps a coordinate inside the canvas, or outside by at most one frame's travel and already heading back |
| `ParticleModel.DecayUndershoots` | frontend/src/pages/Home.js:270 | the decay has no floor: a concrete particle ends below its baseSize, still within the size bounds |
| `ParticleModel.LeftEdgeReflection` | frontend/src/pages/Home.js:263-265 | a particle at x = 0 moving at -0.4 is at -0.4 with dx = 0.4 after one frame and back at 0 after the next |
| `ParticleModel.EvolveKeepsInvariants` | frontend/src/pages/Home.js:262-273 | over any number of frames, the size bounds, baseSize, the speed on each axis and the near-the-canvas bound all hold |
| `ParticleModel.GrowthSaturates` | frontend/src/pages/Home.js:268-269 | while the pointer stays within the radius for k frames, size is min(4*baseSize, size + k) |
| `ParticleModel.DecayPerFrame` | frontend/src/pages/Home.js:270 | while the pointer stays present but far and size is still above baseSize, size falls by exactly 0.3 per frame |
| `ParticleModel.DecaySettles` | frontend/src/pages/Home.js:270 | once size is at or below baseSize, a pointer that stays far leaves it unchanged |
| `ParticleModel.TickKeepsPopulation` | frontend/src/pages/Home.js:308 | a frame keeps the number of particles and each one's baseSize, and keeps every particle within the size bounds |
| `ParticleModel.LinksMembers` | frontend/src/pages/Home.js:289-301 | a line (i, j) is drawn if and only if i < j < n and the two particles are closer than 100; it records their squared distance |
| `ParticleModel.LinksOrdered` | frontend/src/pages/Home.js:290-293 | lines come in strict (i, j) scan order, so no pair is drawn twice |
| `ParticleModel.Alpha` | frontend/src/pages/Home.js:296 | for a distance in [0, 100) the alpha lies in (0, 1] |
| `ParticleModel.AlphaDecreasing` | frontend/src/pages/Home.js:296 | a closer pair gets a strictly more opaque line |
| `ParticleModel.AlphaAtHalfDistance` | frontend/src/pages/Home.js:296 | two particles 50 apart get alpha 0.5 |
| `ParticleModel.SquareMonotone` | frontend/src/pages/Home.js:268-269 | for non-negative values, comparing a distance with a threshold is the same as comparing their squares |
| `ParticleModel.DrawnAlphaInRange` | frontend/src/pages/Home.js:294-296 | the distance of every drawn line is below 100, and its alpha is in (0, 1] |
| `ParticleEngine.Measure` | frontend/src/pages/Home.js:211-212 | a dimension is the displayed size, or the backing size when the displayed size is 0 |
| `ParticleEngine.Particle.constructor` | frontend/src/pages/Home.js:253-255 | a new particle has the given position, velocity and size, and baseSize == size (a constant field, never written again) |
| `ParticleEngine.Particle.Update` | frontend/src/pages/Home.js:262-273 | the particle's new state is exactly one `Step` of its old state, under the current canvas size and pointer |
| `ParticleEngine.Tracker.constructor` | frontend/src/pages/Home.js:199 | the pointer starts absent, both coordinates null; the radius is the constant 120 |
| `ParticleEngine.Tracker.OnMouseMove` | frontend/src/pages/Home.js:226-231 | the pointer becomes (clientX - rect.left, clientY - rect.top) |
| `ParticleEngine.Tracker.OnTouchMove` | frontend/src/pages/Home.js:233-239 | a touch event without a touch leaves the pointer unchanged; otherwise the pointer becomes the first touch relative to the rectangle |
| `ParticleEngine.Tracker.OnMouseOut` | frontend/src/pages/Home.js:241-244 | both coordinates become null, so the pointer is absent |
| `ParticleEngine.Engine.constructor` | frontend/src/pages/Home.js:196-199 | the engine starts with no particles, an absent pointer, no listeners and no frame pending |
| `ParticleEngine.Engine.InitParticles` | frontend/src/pages/Home.js:276-287 | the list is replaced by ParticleCount(width, height) newly allocated particles (none of the previous ones), whose states are the seeding of the random draws; the engine invariant holds |
| `ParticleEngine.Engine.Connect` | frontend/src/pages/Home.js:289-304 | the nested i < j scan draws exactly `Links` of the current particle states, in scan order |
| `ParticleEngine.Engine.Animate` | frontend/src/pages/Home.js:306-312 | every particle is updated exactly once; the list, its length and its order are unchanged; the new states are `TickAll` of the old ones; the lines drawn are `Links` of the new states; the next frame is scheduled |
| `ParticleEngine.Engine.OnResize` | frontend/src/pages/Home.js:218-224 | re-measures both dimensions, sets the backing size to them, then re-seeds with ParticleCount of the new dimensions |
| `ParticleEngine.Engine.Mount` | frontend/src/pages/Home.js:202-315 | does nothing at all when innerWidth <= 480 or there is no canvas; otherwise it measures, attaches listeners, seeds, and runs one frame |
| `ParticleEngine.Engine.Unmount` | frontend/src/pages/Home.js:317-324 | the listeners are detached and the pending frame is cancelled |
| `ContactRules.TrimStart` | frontend/src/pages/Contact.js:105 | the result is a suffix of the input, what was removed is all whitespace, and the result does not start with whitespace |
| `ContactRules.TrimEnd` | frontend/src/pages/Contact.js:105 | the result is a prefix of the input, what was removed is all whitespace, and the result does not end with whitespace |
| `ContactRules.TrimSlice` | frontend/src/pages/Contact.js:105 | trim keeps one contiguous slice of its input |
| `ContactRules.TrimRemovesOnlySpace` | frontend/src/pages/Contact.js:105 | everything trim removes before and after that slice is whitespace |
| `ContactRules.TrimmedEnds` | frontend/src/pages/Contact.js:105 | a non-empty trimmed string neither starts nor ends with whitespace |
| `ContactRules.TrimIdempotent` | frontend/src/pages/Contact.js:105 | trimming twice is trimming once |
| `ContactRules.BlankIffAllSpace` | frontend/src/pages/Contact.js:112 | a field is blank after trimming if and only if it is all whitespace |
| `ContactRules.PatternIsWellFormedAddress` | frontend/src/pages/Contact.js:105 | a string matches ^[^\s@]+@[^\s@]+\.[^\s@]+$ if and only if it has no whitespace, exactly one '@' with something before it, and a '.' after it that is neither the first nor the last character of the part after the '@' |
| `ContactRules.ValidEmailIff` | frontend/src/pages/Contact.js:104-105 | the address check holds if and only if the trimmed input has that shape |
| `ContactRules.ValidEmailExample` | frontend/src/pages/Contact.js:104-105 | "a@b.c" passes the address check |
| `ContactRules.InvalidEmailExample` | frontend/src/pages/Contact.js:104-105 | "a@b", which has no dot after the '@', fails it |
| `ContactRules.BlankFieldReportedFirst` | frontend/src/pages/Contact.js:112-115 | when any field is all whitespace the verdict is "All fields are required.", whatever the address looks like |
| `ContactRules.InvalidEmailReported` | frontend/src/pages/Contact.js:116-119 | with every field filled in, a malformed address gives "Invalid email address." |
| `ContactRules.AcceptedIff` | frontend/src/pages/Contact.js:112-119 | the form is accepted if and only if name and message are not all whitespace and the trimmed address is well formed |
| `ContactRules.JoinFour` | frontend/src/pages/Contact.js:124-126 | joining four lines puts the separator between consecutive lines only |
| `ContactRules.BodyLayout` | frontend/src/pages/Contact.js:123-127 | the body is the name line, the e-mail line, an empty line, then the trimmed message, separated by newlines |
| `ContactRules.MailtoRoundTrip` | frontend/src/pages/Contact.js:121-130 | parsing the URI back gives exactly the encoded subject "Contact from <name>" and the encoded body, when the encoded subject contains no '&' |
| `ContactPage.ContactForm.constructor` | frontend/src/pages/Contact.js:97-99 | the form starts empty, with no status and not sending |
| `ContactPage.ContactForm.HandleChange` | frontend/src/pages/Contact.js:101-102 | only the named field takes the new value; the other two are unchanged |
| `ContactPage.ContactForm.HandleSubmit` | frontend/src/pages/Contact.js:107-130 | on a failed check the status is that check's message, nothing is navigated, and sending and the form are unchanged; on success the status is cleared, sending is set, the completion timer is started and the browser is sent to `MailtoUrl` of the current fields |
| `ContactPage.ContactForm.Complete` | frontend/src/pages/Contact.js:131-135 | sending is cleared, all three fields become "", and the status is a success with "Mail client opened. Please send." |
| `ContactPage.BlankNameScenario` | frontend/src/pages/Contact.js:109-115 | a submit with a blank name and a malformed address shows "All fields are required." and does not navigate |

## Left out

- Canvas drawing (`draw`, `clearRect`, `arc`, `fill`, `stroke` and the style strings) is foreign rendering. `Engine.Connect` and `Engine.Animate` return the lines a frame draws instead.
- `requestAnimationFrame`, `cancelAnimationFrame` and `addEventListener`/`removeEventListener` are host scheduling. They are recorded as the `frameScheduled` and `listening` flags, and the frame loop is the explicit `Engine.Animate` method.
- `Math.random` is nondeterministic. Its values are the parameter `rand`, five numbers per particle, each assumed to lie in [0, 1).
- IEEE-754 doubles, rounding and `Math.hypot` are not modelled. Arithmetic is exact and distances are compared through their squares.
- ParticleModel.DrawnAlphaInRange: states the alpha for any non-negative `dist` whose square is the line's recorded squared distance, because exact square roots are not computed.
- `Engine.Mount` requires that no listeners are attached yet. The effect runs once per mount, since its dependency list is empty.
- `typeof window !== 'undefined'` is taken as true. The model receives `innerWidth` directly.
- The custom cursor (`setCursorPos`, the cursor dot), Lottie, framer-motion and all styled-components CSS are presentation only.
- The static `mailto:` link of the home page (`Home.js:327`) is a constant.
- A pointer with x set but y null cannot arise from the handlers. `Tracker.Valid` excludes it, so JavaScript's coercion of null to 0 is not modelled.
- `encodeURIComponent` is the parameter `enc`. ContactRules.MailtoRoundTrip: relies on the encoded subject containing no '&' rather than proving it, because the encoder's internals (UTF-8 percent-encoding, and the error on lone surrogates) are not modelled.
- `window.location.href` navigation is the value `HandleSubmit` returns.
- `setTimeout` is the separate `ContactForm.Complete` transition. The one-second delay is not modelled.
- `handleChange` is modelled for the three inputs the form has. Other `e.target.name` values cannot occur.
- The inputs and the button are disabled while `sending`. That is rendering, so the model lets every handler be called in any state.
- React state updates are modelled as immediate assignments in program order, which gives the same final state as React's batching of them.
- Strings are sequences of Unicode scalar values, not UTF-16 code units. Lone surrogates are not representable.
- The card-tilt effect and theme helper of `Projects.js`, and the static pages (`Experience.js`, `Skills.js`, `Education.js`, `Footer.js`, `Navbar.js`, `App.js`, `globalStyles.js`), only render data.
