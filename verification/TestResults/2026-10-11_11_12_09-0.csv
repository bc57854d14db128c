TestResult.DisplayName,TestResult.Outcome,TestResult.Duration,TestResult.ResourceCount,RandomSeed
Util.Extrema (correctness),Failed,00:03:30.8758788,30044862,0
Util.Extrema (well-formedness),Passed,00:00:00.1118008,37424,0
