TestResult.DisplayName,TestResult.Outcome,TestResult.Duration,TestResult.ResourceCount,RandomSeed
Util.FindPeaks (correctness),Passed,00:00:07.5636469,13594192,0
Util.FindPeaks (well-formedness),Passed,00:00:00.1096593,60368,0
